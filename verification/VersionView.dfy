/** A chain as one reader sees it at one instant: which links count, and which thoughts are superseded. */
module VersionView {
  import opened Wrappers
  import opened LineageIndex
  import opened Audience

  /** One relation that can take its target out of force: where it comes from and when it holds. */
  datatype InvalidatingEdge = InvalidatingEdge(sourceIndex: nat, timestamp: int, validAt: Option<int>,
                                               invalidAt: Option<int>)

  type InvalidatingMap = map<nat, seq<InvalidatingEdge>>

  /** Whether a link appended at `timestamp` holds at `at`. */
  predicate InForce(timestamp: int, validAt: Option<int>, invalidAt: Option<int>, at: int) {
    timestamp <= at && !(validAt.Some? && validAt.value > at) && !(invalidAt.Some? && invalidAt.value <= at)
  }

  predicate IsInvalidating(kind: RelationKind) {
    kind == RelationKind.Supersedes || kind == RelationKind.Corrects || kind == RelationKind.Invalidates
  }

  /** The invalidation index after the first `n` relations of one more thought. */
  function ObserveInvalidating(edges: InvalidatingMap, source: Thought, n: nat): InvalidatingMap
    requires n <= |source.relations|
  {
    if n == 0 then edges
    else
      var before, relation := ObserveInvalidating(edges, source, n - 1), source.relations[n - 1];
      if !IsInvalidating(relation.kind) then before
      else
        var known := if relation.target in before then before[relation.target] else [];
        before[relation.target := known + [InvalidatingEdge(source.index, source.timestamp, relation.validAt,
          relation.invalidAt)]]
  }

  /** Stored thoughts with everything derived from them; `trusted` lists the positions whose signing
      key is authorized on the chain. */
  datatype Chain = Chain(ctx: Context, byTarget: EdgeMap, invalidating: InvalidatingMap, segments: Segments,
                         trusted: set<nat>) {

    ghost predicate Valid() {
      && ctx.Valid()
      && (forall k :: 0 <= k < |ctx.thoughts| ==>
            && ctx.thoughts[k].index == k
            && ctx.thoughts[k].id in ctx.idToIndex && ctx.idToIndex[ctx.thoughts[k].id] == k)
      && (forall target, e :: target in byTarget && e in byTarget[target] ==>
            e.sourceIndex < |ctx.thoughts| && IsSource(ctx.thoughts[e.sourceIndex], e) && e.sourceId != target)
      && forall target, e :: target in invalidating && e in invalidating[target] ==> e.sourceIndex < |ctx.thoughts|
    }

    /** Whether links from position `sourceIndex` are given effect on `target`. */
    predicate LinkAuthorized(sourceIndex: nat, target: nat)
      requires ctx.Valid()
    {
      if !segments.HasPrivate() || segments.KindAt(sourceIndex) == SegmentKind.Public then true
      else if sourceIndex >= |ctx.thoughts| then false
      else
        var source := ctx.thoughts[sourceIndex];
        if BinarySearch(segments.quarantined, sourceIndex, 0, |segments.quarantined|) || !source.signed then false
        else
          var older := ctx.ById(target);
          (older.Some? && older.value.agent == source.agent) || sourceIndex in trusted
    }

    function InvalidatingEdges(id: nat): seq<InvalidatingEdge> {
      if id in invalidating then invalidating[id] else []
    }

    predicate IsInvalidated(id: nat, now: int)
      requires ctx.Valid()
    {
      exists k :: 0 <= k < |InvalidatingEdges(id)| &&
                  var e := InvalidatingEdges(id)[k];
                  InForce(e.timestamp, e.validAt, e.invalidAt, now) && LinkAuthorized(e.sourceIndex, id)
    }

    /** Some invalidating link the audience may see holds at `at`. */
    predicate VisiblyInvalidated(id: nat, at: int, audience: Audience)
      requires ctx.Valid()
    {
      exists k :: 0 <= k < |InvalidatingEdges(id)| &&
                  var e := InvalidatingEdges(id)[k];
                  && InForce(e.timestamp, e.validAt, e.invalidAt, at)
                  && segments.IsVisible(e.sourceIndex, audience)
                  && LinkAuthorized(e.sourceIndex, id)
    }

    predicate IsInvalidatedFor(id: nat, now: int, audience: Audience)
      requires ctx.Valid()
    {
      if audience == Authorized || !segments.HasPrivate() then IsInvalidated(id, now)
      else VisiblyInvalidated(id, now, audience)
    }
  }

  datatype VersionStatus = Current | Contested | Superseded

  /** One reader of a chain: `now` is the clock, `asOf` an earlier instant to read at. */
  datatype View = View(chain: Chain, now: int, asOf: Option<int>, audience: Audience) {

    function At(): int {
      if asOf.Some? then asOf.value else now
    }

    /** Superseded for this reader: now, and at the instant read at. */
    predicate Invalidated(id: nat)
      requires chain.ctx.Valid()
    {
      chain.IsInvalidatedFor(id, now, audience) && (asOf.Some? ==> chain.VisiblyInvalidated(id, asOf.value, audience))
    }

    predicate Counts(e: Edge) {
      InForce(e.timestamp, e.validAt, e.invalidAt, At()) && chain.segments.IsVisible(e.sourceIndex, audience)
    }

    function VisibleEdges(target: nat): seq<Edge> {
      Filter(EdgesOf(chain.byTarget, target))
    }

    function Filter(edges: seq<Edge>): seq<Edge> {
      if edges == [] then []
      else Filter(edges[..|edges| - 1]) + if Counts(edges[|edges| - 1]) then [edges[|edges| - 1]] else []
    }

    /** The sources of the visible authorized links into `target`, strong ones or weak ones. */
    function Sources(target: nat, strong: bool): (sources: seq<Thought>)
      requires chain.ctx.Valid()
    {
      SourcesOf(VisibleEdges(target), target, strong)
    }

    function SourcesOf(edges: seq<Edge>, target: nat, strong: bool): (sources: seq<Thought>)
      requires chain.ctx.Valid()
    {
      if edges == [] then []
      else
        var last := edges[|edges| - 1];
        SourcesOf(edges[..|edges| - 1], target, strong) +
        if last.kind.IsStrong() == strong && chain.LinkAuthorized(last.sourceIndex, target) &&
            chain.ctx.ById(last.sourceId).Some?
        then [chain.ctx.ById(last.sourceId).value] else []
    }

    function Status(id: nat): VersionStatus
      requires chain.ctx.Valid()
    {
      if Invalidated(id) then Superseded
      else if VisibleEdges(id) != [] then Contested
      else Current
    }
  }
}
