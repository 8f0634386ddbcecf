/** Which claim each link makes, told from the relations and references as they are written. */
module StrongLinks {
  import opened Wrappers
  import opened LineageIndex

  // ----- One thought

  predicate Replacing(kind: RelationKind) {
    kind.Supersedes? || kind.Corrects? || kind.Invalidates?
  }

  /** The relation points at `target` on its own chain. */
  predicate PointsAt(relation: Relation, target: nat) {
    relation.chainKey.None? && relation.target == target
  }

  /** None of the first `n` relations replaces `target`. */
  ghost predicate NoneReplaces(source: Thought, target: nat, n: nat)
    requires n <= |source.relations|
  {
    forall j :: 0 <= j < n ==> !(PointsAt(source.relations[j], target) && Replacing(source.relations[j].kind))
  }

  /** Relation `r` is the first by which `source` replaces `target`. */
  ghost predicate FirstReplacing(source: Thought, target: nat, r: nat) {
    && r < |source.relations| && PointsAt(source.relations[r], target) && Replacing(source.relations[r].kind)
    && NoneReplaces(source, target, r)
  }

  ghost predicate Relates(source: Thought, target: nat, kind: RelationKind) {
    exists r :: 0 <= r < |source.relations| && PointsAt(source.relations[r], target) && source.relations[r].kind == kind
  }

  ghost predicate Replaces(source: Thought, target: nat) {
    Relates(source, target, RelationKind.Supersedes) || Relates(source, target, RelationKind.Corrects) ||
    Relates(source, target, RelationKind.Invalidates)
  }

  predicate Correcting(kind: ThoughtType) {
    kind.Correction? || kind.AssumptionInvalidated?
  }

  predicate ChangesPolicy(source: ThoughtType, target: ThoughtType) {
    && (source.Decision? || source.StrategyShift?)
    && (target.Decision? || target.Constraint? || target.PreferenceUpdate? || target.Plan? || target.StrategyShift?)
  }

  /** A mention that says nothing of its target. */
  predicate Plain(relation: Option<RelationKind>) {
    relation.None? || relation.value.References? || relation.value.RelatedTo?
  }

  /** A plain reference to the stored thought `target`. */
  ghost predicate RefersTo(source: Thought, ctx: Context, target: Thought) {
    exists r :: 0 <= r < |source.refs| && source.refs[r] < |ctx.thoughts| && ctx.thoughts[source.refs[r]] == target
  }

  /** `source` mentions `target` in a way that disputes it: a correction by any mention that is not a
      supporting one, a change of policy by a plain one. */
  ghost predicate Disputes(source: Thought, ctx: Context, target: Thought) {
    || (Correcting(source.kind) &&
        (RefersTo(source, ctx, target) || Relates(source, target.id, References) ||
         Relates(source, target.id, RelatedTo) || Relates(source, target.id, DerivedFrom) ||
         Relates(source, target.id, ContinuesFrom)))
    || (ChangesPolicy(source.kind, target.kind) &&
        (RefersTo(source, ctx, target) || Relates(source, target.id, References) ||
         Relates(source, target.id, RelatedTo)))
  }

  /** The edge of the first replacing relation. */
  function StrongEdge(source: Thought, r: nat): Edge
    requires r < |source.relations| && Replacing(source.relations[r].kind)
  {
    var relation := source.relations[r];
    Edge(source.id, source.index, source.timestamp,
         if relation.kind.Supersedes? then SuccessorKind.Supersedes
         else if relation.kind.Corrects? then SuccessorKind.Corrects
         else SuccessorKind.Invalidates,
         relation.validAt, relation.invalidAt)
  }

  /** How one more relation changes the best link into `target`. */
  lemma BestOfMore(ctx: Context, source: Thought, target: nat, n: nat)
    requires ctx.Valid() && n < |source.relations|
    ensures var before, after := Best(RelationLinks(ctx, source, source.relations[..n]), target),
                                 Best(RelationLinks(ctx, source, source.relations[..n + 1]), target);
            var relation, here := source.relations[n], ctx.ById(source.relations[n].target);
            if !PointsAt(relation, target) || here.None? then after == before
            else
              match ContestKind(source.kind, Some(relation.kind), here.value.kind)
              case None => after == before
              case Some(kind) =>
                if before.None? || kind.Strength() > before.value.kind.Strength() then
                  after == Some(Link(target, kind, relation.validAt, relation.invalidAt))
                else after == before
  {
    hide ContestKind, SuccessorKind.Strength;
    var relation, before := source.relations[n], RelationLinks(ctx, source, source.relations[..n]);
    assert source.relations[..n + 1] == source.relations[..n] + [relation];
    RelationLinksMore(ctx, source, source.relations[..n], relation);
    var here := ctx.ById(relation.target);
    hide Context.ById, Context.Valid;
    if relation.chainKey.None? && here.Some? {
      var kind := ContestKind(source.kind, Some(relation.kind), here.value.kind);
      if kind.Some? {
        BestMore(before, Link(relation.target, kind.value, relation.validAt, relation.invalidAt), target);
      }
    }
  }

  lemma {:induction false} NoneReplacesIsWeak(ctx: Context, source: Thought, target: nat, n: nat)
    requires ctx.Valid() && n <= |source.relations| && NoneReplaces(source, target, n)
    ensures var best := Best(RelationLinks(ctx, source, source.relations[..n]), target);
            best.None? || best.value.kind.Strength() < 3
  {
    hide RelationLinks, Context.Valid, Context.ById;
    if n == 0 {
      NothingResolved(ctx, source, map[]);
      assert source.relations[..0] == [];
    } else {
      NoneReplacesIsWeak(ctx, source, target, n - 1);
      BestOfMore(ctx, source, target, n - 1);
    }
  }

  /** The best link of the first `n` relations is the first replacing one, when there is one. */
  lemma {:induction false} FirstReplacingIsBest(ctx: Context, source: Thought, target: nat, r: nat, n: nat)
    requires ctx.Valid() && ctx.ById(target).Some? && FirstReplacing(source, target, r) && r < n <= |source.relations|
    ensures var best := Best(RelationLinks(ctx, source, source.relations[..n]), target);
            best.Some? && EdgeOf(source, best.value) == StrongEdge(source, r) && best.value.kind.Strength() == 3
  {
    hide RelationLinks, Context.Valid, Context.ById;
    BestOfMore(ctx, source, target, n - 1);
    if r == n - 1 {
      NoneReplacesIsWeak(ctx, source, target, r);
    } else {
      FirstReplacingIsBest(ctx, source, target, r, n - 1);
    }
  }

  /** The edge a thought keeps into one it replaces is that of its first replacing relation. */
  lemma StrongEdgeIsKept(ctx: Context, source: Thought, target: nat, r: nat)
    requires ctx.Valid() && ctx.ById(target).Some? && source.id != target && FirstReplacing(source, target, r)
    ensures Contribution(source, ctx, target) == [StrongEdge(source, r)]
  {
    hide StrongEdge, RelationLinks;
    FirstReplacingIsBest(ctx, source, target, r, |source.relations|);
    assert source.relations[..|source.relations|] == source.relations;
    RefsAreWeaker(ctx, source, RelationLinks(ctx, source, source.relations), source.refs, target);
  }

  /** References never take over from a relation's link. */
  lemma {:induction false} RefsAreWeaker(ctx: Context, source: Thought, related: seq<Link>, refs: seq<nat>, target: nat)
    requires Best(related, target).Some? && Best(related, target).value.kind.Strength() >= 1
    ensures Best(related + RefLinks(ctx, source, refs), target) == Best(related, target)
  {
    hide ContestKind;
    if refs == [] {
      assert related + RefLinks(ctx, source, refs) == related;
    } else {
      var before, last := refs[..|refs| - 1], refs[|refs| - 1];
      RefsAreWeaker(ctx, source, related, before, target);
      assert refs == before + [last];
      if last >= |ctx.thoughts| {
        RefLinksBeyond(ctx, source, before, last);
      } else {
        RefLinksMore(ctx, source, before, last);
        var links := related + RefLinks(ctx, source, before);
        var kind := ContestKind(source.kind, None, ctx.thoughts[last].kind);
        if kind.Some? {
          ContestIsWeakest(source.kind, ctx.thoughts[last].kind);
          var link := Link(ctx.thoughts[last].id, kind.value, None, None);
          assert related + (RefLinks(ctx, source, before) + [link]) == links + [link];
          BestMore(links, link, target);
        }
      }
    }
  }

  // ----- Which edge a thought keeps, for every pair

  /** Every stored thought is found by its id. */
  ghost predicate Known(ctx: Context) {
    ctx.Valid() && forall k :: 0 <= k < |ctx.thoughts| ==>
      ctx.thoughts[k].id in ctx.idToIndex && ctx.idToIndex[ctx.thoughts[k].id] == k
  }

  ghost predicate HasLink(links: seq<Link>, target: nat, kind: SuccessorKind) {
    exists i :: 0 <= i < |links| && links[i].target == target && links[i].kind == kind
  }

  lemma HasLinkMore(links: seq<Link>, more: seq<Link>, target: nat, kind: SuccessorKind)
    ensures HasLink(links + more, target, kind) <==> HasLink(links, target, kind) || HasLink(more, target, kind)
    ensures |more| == 1 ==> (HasLink(more, target, kind) <==> more[0].target == target && more[0].kind == kind)
  {
    var all := links + more;
    assert forall i :: 0 <= i < |links| ==> all[i] == links[i];
    assert forall i :: 0 <= i < |more| ==> all[|links| + i] == more[i];
  }

  /** One of the first `n` relations makes this claim on `target`. */
  ghost predicate RelationClaims(source: Thought, target: Thought, n: nat, kind: SuccessorKind)
    requires n <= |source.relations|
  {
    exists r :: 0 <= r < n && PointsAt(source.relations[r], target.id) &&
                ContestKind(source.kind, Some(source.relations[r].kind), target.kind) == Some(kind)
  }

  lemma {:induction false} RelationsHave(ctx: Context, source: Thought, target: Thought, n: nat, kind: SuccessorKind)
    requires ctx.Valid() && ctx.ById(target.id) == Some(target) && n <= |source.relations|
    ensures HasLink(RelationLinks(ctx, source, source.relations[..n]), target.id, kind) <==>
            RelationClaims(source, target, n, kind)
  {
    hide ContestKind, RelationLinks, Context.Valid, Context.ById;
    NothingResolved(ctx, source, map[]);
    if n == 0 {
      assert source.relations[..0] == [];
    } else {
      RelationsHave(ctx, source, target, n - 1, kind);
      RelationHas(ctx, source, target, n - 1, kind);
    }
  }

  lemma RelationHas(ctx: Context, source: Thought, target: Thought, n: nat, kind: SuccessorKind)
    requires ctx.Valid() && ctx.ById(target.id) == Some(target) && n < |source.relations|
    ensures HasLink(RelationLinks(ctx, source, source.relations[..n + 1]), target.id, kind) <==>
            HasLink(RelationLinks(ctx, source, source.relations[..n]), target.id, kind) ||
            (PointsAt(source.relations[n], target.id) &&
             ContestKind(source.kind, Some(source.relations[n].kind), target.kind) == Some(kind))
  {
    hide ContestKind;
    var relation, before := source.relations[n], RelationLinks(ctx, source, source.relations[..n]);
    assert source.relations[..n + 1] == source.relations[..n] + [relation];
    RelationLinksMore(ctx, source, source.relations[..n], relation);
    var here := ctx.ById(relation.target);
    if relation.chainKey.None? && here.Some? {
      var claimed := ContestKind(source.kind, Some(relation.kind), here.value.kind);
      if claimed.Some? {
        HasLinkMore(before, [Link(relation.target, claimed.value, relation.validAt, relation.invalidAt)], target.id,
          kind);
      }
    }
  }

  lemma {:induction false} RefsHave(ctx: Context, source: Thought, target: Thought, refs: seq<nat>, kind: SuccessorKind)
    requires Known(ctx) && ctx.ById(target.id) == Some(target)
    ensures HasLink(RefLinks(ctx, source, refs), target.id, kind) <==>
            ContestKind(source.kind, None, target.kind) == Some(kind) &&
            exists r :: 0 <= r < |refs| && refs[r] < |ctx.thoughts| && ctx.thoughts[refs[r]] == target
  {
    hide ContestKind;
    if refs != [] {
      var before, last := refs[..|refs| - 1], refs[|refs| - 1];
      RefsHave(ctx, source, target, before, kind);
      assert refs == before + [last];
      if last >= |ctx.thoughts| {
        RefLinksBeyond(ctx, source, before, last);
      } else {
        assert ctx.thoughts[last].id == target.id <==> ctx.thoughts[last] == target;
        RefLinksMore(ctx, source, before, last);
        var claimed := ContestKind(source.kind, None, ctx.thoughts[last].kind);
        if claimed.Some? {
          HasLinkMore(RefLinks(ctx, source, before), [Link(ctx.thoughts[last].id, claimed.value, None, None)],
            target.id, kind);
        }
      }
    }
  }

  /** What each link claims, relation by relation. */
  lemma ClaimTable(source: ThoughtType, relation: Option<RelationKind>, target: ThoughtType)
    ensures var kind := ContestKind(source, relation, target);
            && (kind == Some(SuccessorKind.Supersedes) <==> relation == Some(RelationKind.Supersedes))
            && (kind == Some(SuccessorKind.Corrects) <==> relation == Some(RelationKind.Corrects))
            && (kind == Some(SuccessorKind.Invalidates) <==> relation == Some(RelationKind.Invalidates))
            && (kind == Some(SuccessorKind.Contradicts) <==> relation == Some(RelationKind.Contradicts))
            && (kind == Some(Contests) <==>
               || (Correcting(source) &&
                  (Plain(relation) || relation.value.DerivedFrom? || relation.value.ContinuesFrom?))
               || (ChangesPolicy(source, target) && Plain(relation)))
  {
    hide Correcting, ChangesPolicy;
    Mentions(source, relation, target);
  }

  lemma Mentions(source: ThoughtType, relation: Option<RelationKind>, target: ThoughtType)
    ensures Plain(relation) ==>
              ContestKind(source, relation, target) ==
              if Correcting(source) || ChangesPolicy(source, target) then Some(Contests) else None
    ensures relation == Some(DerivedFrom) || relation == Some(ContinuesFrom) ==>
              ContestKind(source, relation, target) == if Correcting(source) then Some(Contests) else None
  {
  }

  /** The claims a thought makes on another one, link by link. */
  lemma LinksClaim(ctx: Context, source: Thought, target: Thought)
    requires Known(ctx) && ctx.ById(target.id) == Some(target)
    ensures var links := LinksOf(ctx, source);
            && (HasLink(links, target.id, SuccessorKind.Supersedes) <==>
               Relates(source, target.id, RelationKind.Supersedes))
            && (HasLink(links, target.id, SuccessorKind.Corrects) <==>
               Relates(source, target.id, RelationKind.Corrects))
            && (HasLink(links, target.id, SuccessorKind.Invalidates) <==>
               Relates(source, target.id, RelationKind.Invalidates))
            && (HasLink(links, target.id, SuccessorKind.Contradicts) <==>
               Relates(source, target.id, RelationKind.Contradicts))
            && (HasLink(links, target.id, Contests) <==> Disputes(source, ctx, target))
  {
    hide ContestKind, RelationLinks, RefLinks, Context.Valid, Context.ById;
    assert source.relations[..|source.relations|] == source.relations;
    forall kind: SuccessorKind
      ensures HasLink(LinksOf(ctx, source), target.id, kind) <==>
              RelationClaims(source, target, |source.relations|, kind) ||
              (ContestKind(source.kind, None, target.kind) == Some(kind) && RefersTo(source, ctx, target))
    {
      RelationsHave(ctx, source, target, |source.relations|, kind);
      RefsHave(ctx, source, target, source.refs, kind);
      HasLinkMore(RelationLinks(ctx, source, source.relations), RefLinks(ctx, source, source.refs), target.id, kind);
    }
    hide HasLink;
    forall relation: Option<RelationKind> {
      ClaimTable(source.kind, relation, target.kind);
    }
  }

  /** The one edge a thought keeps into another: it replaces it exactly when one of its relations does, and
      otherwise contradicts or disputes it when one of its links does. */
  lemma EdgeKindIff(ctx: Context, source: Thought, target: Thought)
    requires Known(ctx) && ctx.ById(target.id) == Some(target) && source.id != target.id
    ensures var edges := Contribution(source, ctx, target.id);
            var contradicts := Relates(source, target.id, RelationKind.Contradicts);
            && |edges| <= 1
            && (edges != [] && edges[0].kind.IsStrong() <==> Replaces(source, target.id))
            && (edges != [] && edges[0].kind.Contradicts? <==> contradicts && !Replaces(source, target.id))
            && (edges != [] && edges[0].kind.Contests? <==>
               Disputes(source, ctx, target) && !contradicts && !Replaces(source, target.id))
  {
    LinksClaim(ctx, source, target);
    BestIsFirstStrongest(LinksOf(ctx, source), target.id);
    hide LinksOf, Disputes, Relates, Context.Valid;
    var best := Best(LinksOf(ctx, source), target.id);
    if best.Some? {
      assert HasLink(LinksOf(ctx, source), target.id, best.value.kind);
    }
  }

  /** Nothing links to what is not stored. */
  lemma {:induction false} UnknownRelationsHaveNone(ctx: Context, source: Thought, relations: seq<Relation>,
                                                    target: nat)
    requires ctx.Valid() && ctx.ById(target).None?
    ensures Best(RelationLinks(ctx, source, relations), target).None?
  {
    hide ContestKind;
    if relations != [] {
      var before, last := relations[..|relations| - 1], relations[|relations| - 1];
      UnknownRelationsHaveNone(ctx, source, before, target);
      assert relations == before + [last];
      RelationLinksMore(ctx, source, before, last);
      var here := ctx.ById(last.target);
      if last.chainKey.None? && here.Some? {
        var kind := ContestKind(source.kind, Some(last.kind), here.value.kind);
        if kind.Some? {
          BestMore(RelationLinks(ctx, source, before), Link(last.target, kind.value, last.validAt, last.invalidAt),
            target);
        }
      }
    }
  }

  lemma {:induction false} UnknownRefsAddNone(ctx: Context, source: Thought, related: seq<Link>, refs: seq<nat>,
                                              target: nat)
    requires Known(ctx) && ctx.ById(target).None? && Best(related, target).None?
    ensures Best(related + RefLinks(ctx, source, refs), target).None?
  {
    hide ContestKind;
    if refs == [] {
      assert related + RefLinks(ctx, source, refs) == related;
    } else {
      var before, last := refs[..|refs| - 1], refs[|refs| - 1];
      UnknownRefsAddNone(ctx, source, related, before, target);
      assert refs == before + [last];
      if last >= |ctx.thoughts| {
        RefLinksBeyond(ctx, source, before, last);
      } else {
        assert ctx.thoughts[last].id != target;
        hide Known, Context.Valid, Context.ById;
        RefLinksMore(ctx, source, before, last);
        var kind := ContestKind(source.kind, None, ctx.thoughts[last].kind);
        if kind.Some? {
          var link := Link(ctx.thoughts[last].id, kind.value, None, None);
          var links := related + RefLinks(ctx, source, before);
          assert related + (RefLinks(ctx, source, before) + [link]) == links + [link];
          BestMore(links, link, target);
        }
      }
    }
  }

  /** A strong edge a thought contributes is that of its first replacing relation. */
  lemma StrongEdgeIsFounded(ctx: Context, source: Thought, target: nat) returns (r: nat)
    requires Known(ctx)
    requires var edges := Contribution(source, ctx, target); edges != [] && edges[0].kind.IsStrong()
    ensures FirstReplacing(source, target, r) && Contribution(source, ctx, target) == [StrongEdge(source, r)]
  {
    hide RelationLinks, RefLinks;
    if ctx.ById(target).None? {
      UnknownRelationsHaveNone(ctx, source, source.relations, target);
      UnknownRefsAddNone(ctx, source, RelationLinks(ctx, source, source.relations), source.refs, target);
    }
    EdgeKindIff(ctx, source, ctx.ById(target).value);
    r := FirstOf(source, target);
    StrongEdgeIsKept(ctx, source, target, r);
  }

  lemma FirstOf(source: Thought, target: nat) returns (r: nat)
    requires Replaces(source, target)
    ensures FirstReplacing(source, target, r)
  {
    r := 0;
    while r < |source.relations| && !(PointsAt(source.relations[r], target) && Replacing(source.relations[r].kind))
      invariant r <= |source.relations| && NoneReplaces(source, target, r)
    {
      r := r + 1;
    }
  }

  // ----- Links to other chains

  function CrossEdges(cross: CrossMap, key: (string, nat)): seq<Edge> {
    if key in cross then cross[key] else []
  }

  /** The edges of the first `n` relations that replace the thought `key.1` of the chain `key.0`. */
  function ReplacingAbroad(source: Thought, key: (string, nat), n: nat): seq<Edge>
    requires n <= |source.relations|
  {
    if n == 0 then []
    else
      var relation := source.relations[n - 1];
      ReplacingAbroad(source, key, n - 1) +
      if relation.chainKey == Some(key.0) && relation.target == key.1 && Replacing(relation.kind)
      then [StrongEdge(source, n - 1)] else []
  }

  /** For every thought of another chain exactly the replacing relations into it are recorded, in order. */
  lemma {:induction false} CrossHolds(cross: CrossMap, source: Thought, key: (string, nat), n: nat)
    requires n <= |source.relations|
    ensures CrossEdges(ObserveCross(cross, source, source.relations[..n]), key) ==
            CrossEdges(cross, key) + ReplacingAbroad(source, key, n)
  {
    if n == 0 {
      assert source.relations[..0] == [];
    } else {
      CrossMore(cross, source, key, n - 1);
      hide ObserveCross, CrossEdges, StrongEdge;
      CrossHolds(cross, source, key, n - 1);
    }
  }

  /** How one more relation changes what is recorded for a thought of another chain. */
  lemma CrossMore(cross: CrossMap, source: Thought, key: (string, nat), n: nat)
    requires n < |source.relations|
    ensures var relation := source.relations[n];
            CrossEdges(ObserveCross(cross, source, source.relations[..n + 1]), key) ==
            CrossEdges(ObserveCross(cross, source, source.relations[..n]), key) +
            if relation.chainKey == Some(key.0) && relation.target == key.1 && Replacing(relation.kind)
            then [StrongEdge(source, n)] else []
  {
    var relation := source.relations[n];
    assert source.relations[..n + 1] == source.relations[..n] + [relation];
    ObserveCrossMore(cross, source, source.relations[..n], relation);
    ClaimTable(source.kind, Some(relation.kind), Finding);
    hide ObserveCross, ContestKind;
  }
}
