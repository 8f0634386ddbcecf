/** For every thought, the links by which later thoughts claim to take its place or dispute it. */
module LineageIndex {
  import opened Wrappers

  datatype ThoughtType =
    | PreferenceUpdate | UserTrait | RelationshipUpdate | Finding | Insight | FactLearned | PatternDetected
    | Hypothesis | Mistake | Correction | LessonLearned | AssumptionInvalidated | Constraint | Plan | Subgoal
    | Decision | StrategyShift | Wonder | Question | Idea | Experiment | ActionTaken | TaskComplete | Checkpoint
    | StateSnapshot | Handoff | Summary | Surprise | Reframe | Goal | LLMExtracted | AccessPolicy

  datatype RelationKind =
    | References | Summarizes | Corrects | Invalidates | CausedBy | Supports | Contradicts | DerivedFrom
    | ContinuesFrom | BranchesFrom | RelatedTo | Supersedes

  datatype SuccessorKind = Supersedes | Corrects | Invalidates | Contradicts | Contests {
    predicate IsStrong() {
      Supersedes? || Corrects? || Invalidates?
    }

    function Strength(): nat {
      match this
      case Supersedes | Corrects | Invalidates => 3
      case Contradicts => 2
      case Contests => 1
    }
  }

  /** A link with a kind and a target; `chainKey` is set when the target is not on this chain. */
  datatype Relation = Relation(kind: RelationKind, target: nat, chainKey: Option<string>,
                               validAt: Option<int>, invalidAt: Option<int>)

  datatype Thought = Thought(id: nat, index: nat, timestamp: int, agent: string, kind: ThoughtType, signed: bool,
                             relations: seq<Relation>, refs: seq<nat>)

  datatype Edge = Edge(sourceId: nat, sourceIndex: nat, timestamp: int, kind: SuccessorKind,
                       validAt: Option<int>, invalidAt: Option<int>)

  /** The stored thoughts a link is resolved against. */
  datatype Context = Context(thoughts: seq<Thought>, idToIndex: map<nat, nat>) {
    ghost predicate Valid() {
      forall id :: id in idToIndex ==> idToIndex[id] < |thoughts| && thoughts[idToIndex[id]].id == id
    }

    function ById(id: nat): (found: Option<Thought>)
      requires Valid()
      ensures found.Some? ==> found.value.id == id
    {
      if id in idToIndex then Some(thoughts[idToIndex[id]]) else None
    }
  }

  /** Which claim on its target a link makes, given both thoughts' types; none for a mere mention. */
  function ContestKind(source: ThoughtType, relation: Option<RelationKind>,
                       target: ThoughtType): Option<SuccessorKind> {
    match relation
    case Some(Supersedes) => Some(SuccessorKind.Supersedes)
    case Some(Corrects) => Some(SuccessorKind.Corrects)
    case Some(Invalidates) => Some(SuccessorKind.Invalidates)
    case Some(Contradicts) => Some(SuccessorKind.Contradicts)
    case Some(Supports) => None
    case Some(Summarizes) => None
    case Some(CausedBy) => None
    case Some(BranchesFrom) => None
    case _ =>
      var correcting := source.Correction? || source.AssumptionInvalidated?;
      var policyChange :=
        && (source.Decision? || source.StrategyShift?)
        && (target.Decision? || target.Constraint? || target.PreferenceUpdate? || target.Plan? || target.StrategyShift?)
        && (relation.None? || relation == Some(References) || relation == Some(RelatedTo));
      if correcting || policyChange then Some(Contests) else None
  }

  /** One link of a thought that counts as replacing or contesting its target. */
  datatype Link = Link(target: nat, kind: SuccessorKind, validAt: Option<int>, invalidAt: Option<int>)

  function EdgeOf(source: Thought, link: Link): Edge {
    Edge(source.id, source.index, source.timestamp, link.kind, link.validAt, link.invalidAt)
  }

  type EdgeMap = map<nat, seq<Edge>>
  type CrossMap = map<(string, nat), seq<Edge>>

  function EdgesOf(edges: EdgeMap, target: nat): seq<Edge> {
    if target in edges then edges[target] else []
  }

  // ----- Which links count

  /** The same-chain relations of `source` that count, in order. */
  function RelationLinks(ctx: Context, source: Thought, relations: seq<Relation>): seq<Link>
    requires ctx.Valid()
  {
    if relations == [] then []
    else
      var last := relations[|relations| - 1];
      RelationLinks(ctx, source, relations[..|relations| - 1]) +
      if last.chainKey.Some? || ctx.ById(last.target).None? then []
      else
        match ContestKind(source.kind, Some(last.kind), ctx.ById(last.target).value.kind)
        case None => []
        case Some(kind) => [Link(last.target, kind, last.validAt, last.invalidAt)]
  }

  /** The plain references of `source` that count, in order. */
  function RefLinks(ctx: Context, source: Thought, refs: seq<nat>): seq<Link> {
    if refs == [] then []
    else
      var last := refs[|refs| - 1];
      RefLinks(ctx, source, refs[..|refs| - 1]) +
      if last >= |ctx.thoughts| then []
      else
        var target := ctx.thoughts[last];
        if ContestKind(source.kind, None, target.kind).None? then []
        else [Link(target.id, ContestKind(source.kind, None, target.kind).value, None, None)]
  }

  /** Every link of a thought that counts: relations first, then references. */
  function LinksOf(ctx: Context, source: Thought): seq<Link>
    requires ctx.Valid()
  {
    RelationLinks(ctx, source, source.relations) + RefLinks(ctx, source, source.refs)
  }

  /** The first of the strongest links into `target`. */
  function Best(links: seq<Link>, target: nat): Option<Link> {
    if links == [] then None
    else
      var before, last := Best(links[..|links| - 1], target), links[|links| - 1];
      if last.target != target then before
      else if before.None? || last.kind.Strength() > before.value.kind.Strength() then Some(last)
      else before
  }

  lemma {:induction false} BestIsFirstStrongest(links: seq<Link>, target: nat)
    ensures Best(links, target).None? <==> forall k :: 0 <= k < |links| ==> links[k].target != target
    ensures Best(links, target).Some? ==>
              exists i :: 0 <= i < |links| && links[i] == Best(links, target).value && links[i].target == target
                          && (forall k :: 0 <= k < |links| && links[k].target == target ==>
                                links[k].kind.Strength() <= links[i].kind.Strength())
                          && (forall k :: 0 <= k < i && links[k].target == target ==>
                                links[k].kind.Strength() < links[i].kind.Strength())
  {
    if links != [] {
      BestIsFirstStrongest(links[..|links| - 1], target);
      assert forall k :: 0 <= k < |links| - 1 ==> links[k] == links[..|links| - 1][k];
    }
  }

  // ----- Adding edges

  /** Add a link's edge: a second link from the same source only ever strengthens the edge it has. */
  function AddEdge(edges: seq<Edge>, source: Thought, link: Link): seq<Edge> {
    if edges == [] then [EdgeOf(source, link)]
    else if edges[0].sourceId == source.id then
      if link.kind.Strength() > edges[0].kind.Strength() then
        [edges[0].(kind := link.kind, validAt := link.validAt, invalidAt := link.invalidAt)] + edges[1..]
      else edges
    else [edges[0]] + AddEdge(edges[1..], source, link)
  }

  /** A thought never replaces itself. */
  function Add(edges: EdgeMap, source: Thought, link: Link): EdgeMap {
    if link.target == source.id then edges
    else edges[link.target := AddEdge(EdgesOf(edges, link.target), source, link)]
  }

  function AddAll(edges: EdgeMap, source: Thought, links: seq<Link>): EdgeMap {
    if links == [] then edges
    else Add(AddAll(edges, source, links[..|links| - 1]), source, links[|links| - 1])
  }

  /** The references that are not already linked by a relation, nor to the thought itself. */
  function NewRefs(ctx: Context, source: Thought, refs: seq<nat>, seen: set<nat>): seq<nat> {
    if refs == [] then []
    else
      var last := refs[|refs| - 1];
      NewRefs(ctx, source, refs[..|refs| - 1], seen) +
      if last >= |ctx.thoughts| || ctx.thoughts[last].id == source.id || ctx.thoughts[last].id in seen then []
          else [last]
  }

  function Targets(links: seq<Link>): set<nat> {
    set k | 0 <= k < |links| :: links[k].target
  }

  /** The index after one more thought. */
  function Observe(edges: EdgeMap, source: Thought, ctx: Context): EdgeMap
    requires ctx.Valid()
  {
    var related := RelationLinks(ctx, source, source.relations);
    AddAll(AddAll(edges, source, related), source,
           RefLinks(ctx, source, NewRefs(ctx, source, source.refs, Targets(related))))
  }

  /** Strong links to other chains, kept apart by chain key and target. */
  function ObserveCross(cross: CrossMap, source: Thought, relations: seq<Relation>): CrossMap {
    if relations == [] then cross
    else
      var before, last := ObserveCross(cross, source, relations[..|relations| - 1]), relations[|relations| - 1];
      if last.chainKey.None? then before
      else
        match ContestKind(source.kind, Some(last.kind), Finding)
        case None => before
        case Some(kind) =>
          if !kind.IsStrong() then before
          else
            var key := (last.chainKey.value, last.target);
            var known := if key in before then before[key] else [];
            before[key := known + [EdgeOf(source, Link(last.target, kind, last.validAt, last.invalidAt))]]
  }

  /** Where an added link goes: into the edge the source already has, or to the end. */
  lemma {:induction false} AddEdgeAt(edges: seq<Edge>, source: Thought, link: Link, k: nat)
    requires k <= |edges| && forall j :: 0 <= j < k ==> edges[j].sourceId != source.id
    requires k < |edges| ==> edges[k].sourceId == source.id
    ensures AddEdge(edges, source, link) ==
            if k == |edges| then edges + [EdgeOf(source, link)]
            else if link.kind.Strength() > edges[k].kind.Strength() then
              edges[k := edges[k].(kind := link.kind, validAt := link.validAt, invalidAt := link.invalidAt)]
            else edges
  {
    if k > 0 {
      AddEdgeAt(edges[1..], source, link, k - 1);
      assert edges == [edges[0]] + edges[1..];
    }
  }

  class Index {
    var byTarget: EdgeMap
    var cross: CrossMap

    constructor ()
      ensures byTarget == map[] && cross == map[]
    {
      byTarget, cross := map[], map[];
    }

    method AddLink(source: Thought, link: Link)
      modifies `byTarget
      ensures byTarget == Add(old(byTarget), source, link)
    {
      if link.target == source.id {
        return;
      }
      var edges := if link.target in byTarget then byTarget[link.target] else [];
      var k := 0;
      while k < |edges| && edges[k].sourceId != source.id
        invariant k <= |edges| && forall j :: 0 <= j < k ==> edges[j].sourceId != source.id
      {
        k := k + 1;
      }
      AddEdgeAt(edges, source, link, k);
      if k < |edges| {
        if link.kind.Strength() > edges[k].kind.Strength() {
          edges := edges[k := edges[k].(kind := link.kind, validAt := link.validAt, invalidAt := link.invalidAt)];
        }
      } else {
        edges := edges + [EdgeOf(source, link)];
      }
      byTarget := byTarget[link.target := edges];
    }

    /** Index the links to other chains and resolve the targets of the others. */
    method ResolveRelations(source: Thought, ctx: Context) returns (candidates: seq<(Relation, Thought)>)
      requires ctx.Valid()
      modifies `cross
      ensures cross == ObserveCross(old(cross), source, source.relations)
      ensures CandidateLinks(source, candidates) == RelationLinks(ctx, source, source.relations)
    {
      hide ContestKind, RelationLinks, CandidateLinks, ObserveCross;
      candidates := [];
      NothingResolved(ctx, source, cross);
      for k := 0 to |source.relations|
        invariant cross == ObserveCross(old(cross), source, source.relations[..k])
        invariant CandidateLinks(source, candidates) == RelationLinks(ctx, source, source.relations[..k])
      {
        var relation := source.relations[k];
        assert source.relations[..k + 1] == source.relations[..k] + [relation];
        RelationLinksMore(ctx, source, source.relations[..k], relation);
        ObserveCrossMore(old(cross), source, source.relations[..k], relation);
        if relation.chainKey.Some? {
          var kind := ContestKind(source.kind, Some(relation.kind), Finding);
          if kind.Some? && kind.value.IsStrong() {
            var key := (relation.chainKey.value, relation.target);
            var known := if key in cross then cross[key] else [];
            var link := Link(relation.target, kind.value, relation.validAt, relation.invalidAt);
            cross := cross[key := known + [EdgeOf(source, link)]];
          }
          continue;
        }
        var target := ctx.ById(relation.target);
        if target.Some? {
          CandidateLinksMore(source, candidates, (relation, target.value));
          candidates := candidates + [(relation, target.value)];
        }
      }
      assert source.relations[..|source.relations|] == source.relations;
    }

    method AddCandidates(source: Thought, candidates: seq<(Relation, Thought)>) returns (seen: set<nat>)
      modifies `byTarget
      ensures byTarget == AddAll(old(byTarget), source, CandidateLinks(source, candidates))
      ensures seen == Targets(CandidateLinks(source, candidates))
    {
      hide ContestKind, Add;
      seen := {};
      for k := 0 to |candidates|
        invariant byTarget == AddAll(old(byTarget), source, CandidateLinks(source, candidates[..k]))
        invariant seen == Targets(CandidateLinks(source, candidates[..k]))
      {
        var (relation, target) := candidates[k];
        assert candidates[..k + 1] == candidates[..k] + [candidates[k]];
        CandidateLinksMore(source, candidates[..k], candidates[k]);
        var kind := ContestKind(source.kind, Some(relation.kind), target.kind);
        if kind.Some? {
          var link := Link(relation.target, kind.value, relation.validAt, relation.invalidAt);
          AddAllMore(old(byTarget), source, CandidateLinks(source, candidates[..k]), link);
          TargetsMore(CandidateLinks(source, candidates[..k]), link);
          AddLink(source, link);
          seen := seen + {relation.target};
        }
      }
      assert candidates[..|candidates|] == candidates;
    }

    method AddRefs(source: Thought, ctx: Context, seen: set<nat>)
      modifies `byTarget
      ensures byTarget == AddAll(old(byTarget), source, RefLinks(ctx, source, NewRefs(ctx, source, source.refs, seen)))
    {
      hide ContestKind, Add;
      for k := 0 to |source.refs|
        invariant byTarget ==
                  AddAll(old(byTarget), source, RefLinks(ctx, source, NewRefs(ctx, source, source.refs[..k], seen)))
      {
        var index := source.refs[k];
        NewRefsMore(ctx, source, source.refs[..k], index, seen);
        assert source.refs[..k + 1] == source.refs[..k] + [index];
        if index >= |ctx.thoughts| {
          continue;
        }
        var target := ctx.thoughts[index];
        if target.id == source.id || target.id in seen {
          continue;
        }
        ghost var refs := NewRefs(ctx, source, source.refs[..k], seen);
        RefLinksMore(ctx, source, refs, index);
        var kind := ContestKind(source.kind, None, target.kind);
        if kind.Some? {
          var link := Link(target.id, kind.value, None, None);
          AddAllMore(old(byTarget), source, RefLinks(ctx, source, refs), link);
          AddLink(source, link);
        }
      }
      assert source.refs[..|source.refs|] == source.refs;
    }

    /** Record every edge `source` creates. */
    method ObserveThought(source: Thought, ctx: Context)
      requires ctx.Valid()
      modifies this
      ensures byTarget == Observe(old(byTarget), source, ctx)
      ensures cross == ObserveCross(old(cross), source, source.relations)
    {
      var candidates := ResolveRelations(source, ctx);
      var seen := AddCandidates(source, candidates);
      AddRefs(source, ctx, seen);
    }
  }

  /** The links of relations whose targets are already resolved. */
  function CandidateLinks(source: Thought, candidates: seq<(Relation, Thought)>): seq<Link> {
    if candidates == [] then []
    else
      var (relation, target) := candidates[|candidates| - 1];
      CandidateLinks(source, candidates[..|candidates| - 1]) +
      match ContestKind(source.kind, Some(relation.kind), target.kind)
      case None => []
      case Some(kind) => [Link(relation.target, kind, relation.validAt, relation.invalidAt)]
  }

  lemma CandidateLinksMore(source: Thought, candidates: seq<(Relation, Thought)>, last: (Relation, Thought))
    ensures var kind := ContestKind(source.kind, Some(last.0.kind), last.1.kind);
            CandidateLinks(source, candidates + [last]) ==
            if kind.None? then CandidateLinks(source, candidates)
            else
              CandidateLinks(source, candidates) +
              [Link(last.0.target, kind.value, last.0.validAt, last.0.invalidAt)]
  {
    assert (candidates + [last])[..|candidates|] == candidates;
  }

  lemma NothingResolved(ctx: Context, source: Thought, cross: CrossMap)
    requires ctx.Valid()
    ensures CandidateLinks(source, []) == RelationLinks(ctx, source, []) && ObserveCross(cross, source, []) == cross
  {
  }

  lemma RelationLinksMore(ctx: Context, source: Thought, relations: seq<Relation>, last: Relation)
    requires ctx.Valid()
    ensures var before, target := RelationLinks(ctx, source, relations), ctx.ById(last.target);
            RelationLinks(ctx, source, relations + [last]) ==
            if last.chainKey.Some? || target.None? then before
            else
              match ContestKind(source.kind, Some(last.kind), target.value.kind)
              case None => before
              case Some(kind) => before + [Link(last.target, kind, last.validAt, last.invalidAt)]
  {
    assert (relations + [last])[..|relations|] == relations;
  }

  lemma ObserveCrossMore(cross: CrossMap, source: Thought, relations: seq<Relation>, last: Relation)
    ensures var before := ObserveCross(cross, source, relations);
            var kind := ContestKind(source.kind, Some(last.kind), Finding);
            ObserveCross(cross, source, relations + [last]) ==
            if last.chainKey.None? || kind.None? || !kind.value.IsStrong() then before
            else
              var key := (last.chainKey.value, last.target);
              var known := if key in before then before[key] else [];
              before[key := known + [EdgeOf(source, Link(last.target, kind.value, last.validAt, last.invalidAt))]]
  {
    assert (relations + [last])[..|relations|] == relations;
  }

  lemma NewRefsMore(ctx: Context, source: Thought, refs: seq<nat>, last: nat, seen: set<nat>)
    ensures NewRefs(ctx, source, refs + [last], seen) ==
            if last >= |ctx.thoughts| || ctx.thoughts[last].id == source.id || ctx.thoughts[last].id in seen
            then NewRefs(ctx, source, refs, seen)
            else NewRefs(ctx, source, refs, seen) + [last]
  {
    assert (refs + [last])[..|refs|] == refs;
  }

  lemma RefLinksBeyond(ctx: Context, source: Thought, refs: seq<nat>, last: nat)
    requires last >= |ctx.thoughts|
    ensures RefLinks(ctx, source, refs + [last]) == RefLinks(ctx, source, refs)
  {
    assert (refs + [last])[..|refs|] == refs;
  }

  lemma RefLinksMore(ctx: Context, source: Thought, refs: seq<nat>, last: nat)
    requires last < |ctx.thoughts|
    ensures var kind := ContestKind(source.kind, None, ctx.thoughts[last].kind);
            RefLinks(ctx, source, refs + [last]) ==
            if kind.None? then RefLinks(ctx, source, refs)
            else RefLinks(ctx, source, refs) + [Link(ctx.thoughts[last].id, kind.value, None, None)]
  {
    assert (refs + [last])[..|refs|] == refs;
  }

  lemma AddAllMore(edges: EdgeMap, source: Thought, links: seq<Link>, link: Link)
    ensures AddAll(edges, source, links + [link]) == Add(AddAll(edges, source, links), source, link)
  {
    assert (links + [link])[..|links|] == links;
  }

  lemma TargetsMore(links: seq<Link>, link: Link)
    ensures Targets(links + [link]) == Targets(links) + {link.target}
  {
    var more := links + [link];
    assert more[|links|] == link && forall k :: 0 <= k < |links| ==> more[k] == links[k];
    assert Targets(links) <= Targets(more) by {
      forall x | x in Targets(links)
        ensures x in Targets(more)
      {
        var k :| 0 <= k < |links| && links[k].target == x;
        assert more[k].target == x;
      }
    }
  }

  // ----- What the index holds

  /** The edge a thought contributes to `target`: its first strongest link, if it has one. */
  function Contribution(source: Thought, ctx: Context, target: nat): seq<Edge>
    requires ctx.Valid()
  {
    if source.id == target then []
    else
      match Best(LinksOf(ctx, source), target)
      case None => []
      case Some(link) => [EdgeOf(source, link)]
  }

  /** No edge of `edges` comes from the thought `id`. */
  ghost predicate NotYet(edges: seq<Edge>, id: nat) {
    forall k :: 0 <= k < |edges| ==> edges[k].sourceId != id
  }

  function WithBest(edges: seq<Edge>, source: Thought, best: Option<Link>): seq<Edge> {
    match best
    case None => edges
    case Some(link) => edges + [EdgeOf(source, link)]
  }

  /** Adding links one by one leaves, for each target, the edge of the first strongest. */
  lemma {:induction false} AddAllIsBest(edges: EdgeMap, source: Thought, links: seq<Link>, target: nat)
    requires NotYet(EdgesOf(edges, target), source.id)
    ensures EdgesOf(AddAll(edges, source, links), target) ==
            if source.id == target then EdgesOf(edges, target)
            else WithBest(EdgesOf(edges, target), source, Best(links, target))
  {
    if links != [] {
      var before, last := links[..|links| - 1], links[|links| - 1];
      AddAllIsBest(edges, source, before, target);
      var known := EdgesOf(edges, target);
      if last.target == target != source.id {
        AddEdgeAt(EdgesOf(AddAll(edges, source, before), target), source, last, |known|);
      }
    }
  }

  /** A reference only ever contests. */
  lemma {:induction false} RefsContest(ctx: Context, source: Thought, refs: seq<nat>)
    ensures forall k :: 0 <= k < |RefLinks(ctx, source, refs)| ==> RefLinks(ctx, source, refs)[k].kind == Contests
  {
    if refs != [] {
      RefsContest(ctx, source, refs[..|refs| - 1]);
    }
  }

  /** The best link of a thought's relations and the given references. */
  function BestWith(ctx: Context, source: Thought, related: seq<Link>, refs: seq<nat>, target: nat): Option<Link> {
    Best(related + RefLinks(ctx, source, refs), target)
  }

  /** Skipping references to targets already linked changes no best link. */
  lemma {:induction false} SkippedRefsDoNotMatter(ctx: Context, source: Thought, related: seq<Link>, refs: seq<nat>,
                                                  target: nat)
    requires target != source.id
    ensures BestWith(ctx, source, related, NewRefs(ctx, source, refs, Targets(related)), target) ==
            BestWith(ctx, source, related, refs, target)
  {
    hide BestWith, ContestKind, Targets;
    if refs != [] {
      var before, last := refs[..|refs| - 1], refs[|refs| - 1];
      SkippedRefsDoNotMatter(ctx, source, related, before, target);
      NewRefsMore(ctx, source, before, last, Targets(related));
      assert refs == before + [last];
      hide NewRefs;
      var kept := NewRefs(ctx, source, before, Targets(related));
      LastRef(ctx, source, related, before, last, target);
      LastRef(ctx, source, related, kept, last, target);
    }
  }

  /** What one more reference does to the best link: nothing when its target is already linked
      or is another thought, and otherwise the same for any references before it. */
  lemma LastRef(ctx: Context, source: Thought, related: seq<Link>, refs: seq<nat>, last: nat, target: nat)
    ensures var before, after := BestWith(ctx, source, related, refs, target),
                                 BestWith(ctx, source, related, refs + [last], target);
            if last >= |ctx.thoughts| || ctx.thoughts[last].id != target || before.Some? then after == before
            else
              match ContestKind(source.kind, None, ctx.thoughts[last].kind)
              case None => after == before
              case Some(kind) => after == Some(Link(target, kind, None, None))
    ensures target in Targets(related) ==> BestWith(ctx, source, related, refs, target).Some?
  {
    hide ContestKind;
    if target in Targets(related) {
      BestKnown(related, RefLinks(ctx, source, refs), target);
    }
    if last >= |ctx.thoughts| {
      RefLinksBeyond(ctx, source, refs, last);
    } else {
      RefLinksMore(ctx, source, refs, last);
      var links, kind := related + RefLinks(ctx, source, refs), ContestKind(source.kind, None, ctx.thoughts[last].kind);
      BestIsFirstStrongest(links, target);
      if kind.Some? {
        var link := Link(ctx.thoughts[last].id, kind.value, None, None);
        assert related + (RefLinks(ctx, source, refs) + [link]) == links + [link];
        ContestIsWeakest(source.kind, ctx.thoughts[last].kind);
        BestMore(links, link, target);
      }
    }
  }

  lemma ContestIsWeakest(source: ThoughtType, target: ThoughtType)
    ensures ContestKind(source, None, target).Some? ==> ContestKind(source, None, target).value.Strength() == 1
  {
  }

  lemma BestMore(links: seq<Link>, link: Link, target: nat)
    ensures Best(links + [link], target) ==
            if link.target != target then Best(links, target)
            else if Best(links, target).None? || link.kind.Strength() > Best(links, target).value.kind.Strength() then
                Some(link)
            else Best(links, target)
  {
    assert (links + [link])[..|links|] == links;
  }

  lemma BestKnown(related: seq<Link>, more: seq<Link>, target: nat)
    requires target in Targets(related)
    ensures Best(related + more, target).Some? && Best(related + more, target).value.kind.Strength() >= 1
  {
    var k :| 0 <= k < |related| && related[k].target == target;
    assert (related + more)[k].target == target;
    BestIsFirstStrongest(related + more, target);
  }

  /** Observing a thought adds to every target exactly the edge of its first strongest link. */
  lemma ObserveAdds(edges: EdgeMap, source: Thought, ctx: Context, target: nat)
    requires ctx.Valid() && NotYet(EdgesOf(edges, target), source.id)
    ensures EdgesOf(Observe(edges, source, ctx), target) == EdgesOf(edges, target) + Contribution(source, ctx, target)
  {
    var related := RelationLinks(ctx, source, source.relations);
    var more := RefLinks(ctx, source, NewRefs(ctx, source, source.refs, Targets(related)));
    AddAllConcat(edges, source, related, more);
    AddAllIsBest(edges, source, related + more, target);
    if source.id != target {
      SkippedRefsDoNotMatter(ctx, source, related, source.refs, target);
    }
  }

  lemma {:induction false} AddAllConcat(edges: EdgeMap, source: Thought, links: seq<Link>, more: seq<Link>)
    ensures AddAll(AddAll(edges, source, links), source, more) == AddAll(edges, source, links + more)
  {
    if more == [] {
      assert links + more == links;
    } else {
      var front := more[..|more| - 1];
      AddAllConcat(edges, source, links, front);
      assert (links + more)[..|links + more| - 1] == links + front;
    }
  }

  // ----- Whole chains

  /** The index after observing `thoughts` in order, thought `k` against `contexts[k]`. */
  function ObserveAll(thoughts: seq<Thought>, contexts: seq<Context>): EdgeMap
    requires |thoughts| == |contexts| && forall k :: 0 <= k < |contexts| ==> contexts[k].Valid()
  {
    if thoughts == [] then map[]
    else
      var n := |thoughts| - 1;
      Observe(ObserveAll(thoughts[..n], contexts[..n]), thoughts[n], contexts[n])
  }

  /** The edges into `target` of a chain, in chain order: one per thought with a counting link to it. */
  function EdgesInto(thoughts: seq<Thought>, contexts: seq<Context>, target: nat): seq<Edge>
    requires |thoughts| == |contexts| && forall k :: 0 <= k < |contexts| ==> contexts[k].Valid()
  {
    if thoughts == [] then []
    else
      var n := |thoughts| - 1;
      EdgesInto(thoughts[..n], contexts[..n], target) + Contribution(thoughts[n], contexts[n], target)
  }

  predicate DistinctIds(thoughts: seq<Thought>) {
    forall j, k :: 0 <= j < k < |thoughts| ==> thoughts[j].id != thoughts[k].id
  }

  /** The sources of the edges into a target are thoughts of the chain, each at most once, never the target. */
  lemma {:induction false} EdgeSources(thoughts: seq<Thought>, contexts: seq<Context>, target: nat)
    requires |thoughts| == |contexts| && forall k :: 0 <= k < |contexts| ==> contexts[k].Valid()
    ensures forall e :: e in EdgesInto(thoughts, contexts, target) ==>
              e.sourceId != target && exists k :: 0 <= k < |thoughts| && IsSource(thoughts[k], e)
  {
    if thoughts != [] {
      var n := |thoughts| - 1;
      EdgeSources(thoughts[..n], contexts[..n], target);
      forall e | e in EdgesInto(thoughts, contexts, target)
        ensures e.sourceId != target && exists k :: 0 <= k < |thoughts| && IsSource(thoughts[k], e)
      {
        if e in EdgesInto(thoughts[..n], contexts[..n], target) {
          var k :| 0 <= k < n && IsSource(thoughts[..n][k], e);
          assert IsSource(thoughts[k], e);
        } else {
          assert IsSource(thoughts[n], e);
        }
      }
    }
  }

  lemma {:induction false} EdgeSourcesDistinct(thoughts: seq<Thought>, contexts: seq<Context>, target: nat)
    requires |thoughts| == |contexts| && forall k :: 0 <= k < |contexts| ==> contexts[k].Valid()
    requires DistinctIds(thoughts)
    ensures var edges := EdgesInto(thoughts, contexts, target);
            forall j, k :: 0 <= j < k < |edges| ==> edges[j].sourceId != edges[k].sourceId
  {
    if thoughts != [] {
      var n := |thoughts| - 1;
      EdgeSourcesDistinct(thoughts[..n], contexts[..n], target);
      SourcesBefore(thoughts, contexts, target);
      var more := Contribution(thoughts[n], contexts[n], target);
      assert EdgesInto(thoughts, contexts, target) == EdgesInto(thoughts[..n], contexts[..n], target) + more;
      assert |more| <= 1 && forall k :: 0 <= k < |more| ==> more[k].sourceId == thoughts[n].id;
    }
  }

  /** The last thought is not yet a source of the edges before it. */
  lemma SourcesBefore(thoughts: seq<Thought>, contexts: seq<Context>, target: nat)
    requires |thoughts| == |contexts| > 0 && forall k :: 0 <= k < |contexts| ==> contexts[k].Valid()
    requires DistinctIds(thoughts)
    ensures var n := |thoughts| - 1; NotYet(EdgesInto(thoughts[..n], contexts[..n], target), thoughts[n].id)
  {
    var n := |thoughts| - 1;
    EdgeSources(thoughts[..n], contexts[..n], target);
    var edges := EdgesInto(thoughts[..n], contexts[..n], target);
    forall j | 0 <= j < |edges|
      ensures edges[j].sourceId != thoughts[n].id
    {
      assert edges[j] in edges;
      var k :| 0 <= k < n && IsSource(thoughts[..n][k], edges[j]);
    }
  }

  predicate IsSource(thought: Thought, e: Edge) {
    e.sourceId == thought.id && e.sourceIndex == thought.index && e.timestamp == thought.timestamp
  }

  /** After observing any chain, the index holds for every target exactly the edges its thoughts
      contribute: no thought replaces itself, each source has at most one edge into a target, and
      that edge is the first of its strongest links. */
  lemma {:induction false} IndexHolds(thoughts: seq<Thought>, contexts: seq<Context>, target: nat)
    requires |thoughts| == |contexts| && forall k :: 0 <= k < |contexts| ==> contexts[k].Valid()
    requires DistinctIds(thoughts)
    ensures EdgesOf(ObserveAll(thoughts, contexts), target) == EdgesInto(thoughts, contexts, target)
  {
    hide Contribution, Observe;
    if thoughts != [] {
      var n := |thoughts| - 1;
      var before := ObserveAll(thoughts[..n], contexts[..n]);
      IndexHolds(thoughts[..n], contexts[..n], target);
      SourcesBefore(thoughts, contexts, target);
      ObserveAdds(before, thoughts[n], contexts[n], target);
    }
  }

  // ----- Rebuilding on open

  /** Everything `thought` names resolves alike in both contexts. */
  ghost predicate ResolvesAlike(a: Context, b: Context, thought: Thought)
    requires a.Valid() && b.Valid()
  {
    && (forall k :: 0 <= k < |thought.relations| ==>
       a.ById(thought.relations[k].target) == b.ById(thought.relations[k].target))
    && forall k :: 0 <= k < |thought.refs| ==>
         var ref := thought.refs[k];
         ref < |a.thoughts| && ref < |b.thoughts| && a.thoughts[ref] == b.thoughts[ref]
  }

  lemma {:induction false} RelationLinksAlike(a: Context, b: Context, thought: Thought, relations: seq<Relation>)
    requires a.Valid() && b.Valid()
    requires forall k :: 0 <= k < |relations| ==> a.ById(relations[k].target) == b.ById(relations[k].target)
    ensures RelationLinks(a, thought, relations) == RelationLinks(b, thought, relations)
  {
    if relations != [] {
      RelationLinksAlike(a, b, thought, relations[..|relations| - 1]);
      assert a.ById(relations[|relations| - 1].target) == b.ById(relations[|relations| - 1].target);
    }
  }

  lemma {:induction false} RefLinksAlike(a: Context, b: Context, thought: Thought, refs: seq<nat>)
    requires forall k :: 0 <= k < |refs| ==>
             refs[k] < |a.thoughts| && refs[k] < |b.thoughts| && a.thoughts[refs[k]] == b.thoughts[refs[k]]
    ensures RefLinks(a, thought, refs) == RefLinks(b, thought, refs)
  {
    if refs != [] {
      RefLinksAlike(a, b, thought, refs[..|refs| - 1]);
    }
  }

  lemma {:induction false} EdgesIntoAlike(thoughts: seq<Thought>, a: seq<Context>, b: seq<Context>, target: nat)
    requires |thoughts| == |a| == |b|
    requires forall k :: 0 <= k < |a| ==> a[k].Valid() && b[k].Valid() && ResolvesAlike(a[k], b[k], thoughts[k])
    ensures EdgesInto(thoughts, a, target) == EdgesInto(thoughts, b, target)
  {
    if thoughts != [] {
      var n := |thoughts| - 1;
      EdgesIntoAlike(thoughts[..n], a[..n], b[..n], target);
      assert ResolvesAlike(a[n], b[n], thoughts[n]);
      RelationLinksAlike(a[n], b[n], thoughts[n], thoughts[n].relations);
      RefLinksAlike(a[n], b[n], thoughts[n], thoughts[n].refs);
    }
  }

  /** The index kept up to date by appends (each thought resolved against the chain of its time)
      is the index a reopen rebuilds (each resolved against the whole chain), when no thought
      names a later one. */
  lemma RebuildEqualsLive(thoughts: seq<Thought>, live: seq<Context>, rebuilt: seq<Context>, target: nat)
    requires |thoughts| == |live| == |rebuilt| && DistinctIds(thoughts)
    requires forall k :: 0 <= k < |live| ==>
               live[k].Valid() && rebuilt[k].Valid() && ResolvesAlike(live[k], rebuilt[k], thoughts[k])
    ensures EdgesOf(ObserveAll(thoughts, live), target) == EdgesOf(ObserveAll(thoughts, rebuilt), target)
  {
    IndexHolds(thoughts, live, target);
    IndexHolds(thoughts, rebuilt, target);
    EdgesIntoAlike(thoughts, live, rebuilt, target);
  }
}
