/** What a reader of a stored chain gets for a thought that was replaced, told from the stored relations. */
module ReplacedThoughts {
  import opened Wrappers
  import opened Audience
  import opened LineageIndex
  import opened VersionView
  import opened ChainGrowth
  import opened LiveSuccessor
  import opened Redirect
  import opened RedirectSafety
  import opened SortedLists
  import opened StrongLinks

  // ----- What the indexes of a stored chain hold

  /** Relation `r` of the thought at `k` takes `id` out of force. */
  predicate Takes(c: Chain, k: nat, r: nat, id: nat) {
    && k < |c.ctx.thoughts| && r < |c.ctx.thoughts[k].relations|
    && Replacing(c.ctx.thoughts[k].relations[r].kind) && c.ctx.thoughts[k].relations[r].target == id
  }

  function TakingEdge(c: Chain, k: nat, r: nat): InvalidatingEdge
    requires k < |c.ctx.thoughts| && r < |c.ctx.thoughts[k].relations|
  {
    var t, relation := c.ctx.thoughts[k], c.ctx.thoughts[k].relations[r];
    InvalidatingEdge(k, t.timestamp, relation.validAt, relation.invalidAt)
  }

  ghost predicate IsTaking(c: Chain, id: nat, e: InvalidatingEdge) {
    exists k: nat, r: nat :: Takes(c, k, r, id) && e == TakingEdge(c, k, r)
  }

  /** The edge of the first relation by which the thought at its source replaces `target`. */
  ghost predicate IsReplacing(c: Chain, target: nat, e: Edge) {
    && e.sourceIndex < |c.ctx.thoughts|
    && exists r :: FirstReplacing(c.ctx.thoughts[e.sourceIndex], target, r) &&
                   e == StrongEdge(c.ctx.thoughts[e.sourceIndex], r)
  }

  /** Both indexes hold the stored relations: every one that takes a thought out of force, and for every
      thought the first by which each later one replaces it. */
  ghost predicate Indexed(c: Chain) {
    && c.Valid()
    && (forall id, e :: e in c.InvalidatingEdges(id) <==> IsTaking(c, id, e))
    && (forall target, e :: e in EdgesOf(c.byTarget, target) && e.kind.IsStrong() ==> IsReplacing(c, target, e))
    && forall j: nat, k: nat, r: nat ::
         j < k < |c.ctx.thoughts| && FirstReplacing(c.ctx.thoughts[k], c.ctx.thoughts[j].id, r) ==>
           StrongEdge(c.ctx.thoughts[k], r) in EdgesOf(c.byTarget, c.ctx.thoughts[j].id)
  }

  lemma {:induction false} InvalidatingLinksAre(t: Thought, n: nat, target: nat, e: InvalidatingEdge)
    requires n <= |t.relations|
    ensures e in InvalidatingLinks(t, n, target) <==>
            exists r :: 0 <= r < n && Replacing(t.relations[r].kind) && t.relations[r].target == target &&
                        e == InvalidatingEdge(t.index, t.timestamp, t.relations[r].validAt, t.relations[r].invalidAt)
  {
    if n > 0 {
      InvalidatingLinksAre(t, n - 1, target, e);
    }
  }

  lemma EmptyIsIndexed()
    ensures Indexed(EMPTY_CHAIN)
  {
  }

  lemma AppendTakes(c: Chain, t: Thought, segments: Segments, trusted: set<nat>, id: nat, e: InvalidatingEdge)
    requires Indexed(c) && Fresh(c, t)
    ensures var after := Append(c, t, segments, trusted);
            e in after.InvalidatingEdges(id) <==> IsTaking(after, id, e)
  {
    AppendKeepsValid(c, t, segments, trusted);
    AppendInvalidatingEdges(c, t, segments, trusted, id);
    InvalidatingLinksAre(t, |t.relations|, id, e);
    hide Append, InvalidatingLinks, Chain.Valid, Chain.InvalidatingEdges, TakingEdge;
    var n, after := |c.ctx.thoughts|, Append(c, t, segments, trusted);
    assert after.ctx.thoughts[n] == t;
    assert IsTaking(c, id, e) ==> IsTaking(after, id, e) by {
      if IsTaking(c, id, e) {
        var k: nat, r: nat :| Takes(c, k, r, id) && e == TakingEdge(c, k, r);
        TakenAlike(c, after, k, r, id);
      }
    }
    if IsTaking(after, id, e) {
      var k: nat, r: nat :| Takes(after, k, r, id) && e == TakingEdge(after, k, r);
      if k < n {
        TakenAlike(c, after, k, r, id);
      } else {
        LastTakes(after, t, r, id);
      }
    }
    if e in InvalidatingLinks(t, |t.relations|, id) {
      var r: nat :| r < |t.relations| && Replacing(t.relations[r].kind) && t.relations[r].target == id &&
             e == InvalidatingEdge(t.index, t.timestamp, t.relations[r].validAt, t.relations[r].invalidAt);
      LastTakes(after, t, r, id);
    }
  }

  lemma TakenAlike(c: Chain, after: Chain, k: nat, r: nat, id: nat)
    requires k < |c.ctx.thoughts| <= |after.ctx.thoughts| && after.ctx.thoughts[k] == c.ctx.thoughts[k]
    ensures Takes(c, k, r, id) <==> Takes(after, k, r, id)
    ensures r < |c.ctx.thoughts[k].relations| ==> TakingEdge(c, k, r) == TakingEdge(after, k, r)
  {
  }

  lemma LastTakes(after: Chain, t: Thought, r: nat, id: nat)
    requires t.index < |after.ctx.thoughts| && after.ctx.thoughts[t.index] == t && r < |t.relations|
    ensures Takes(after, t.index, r, id) <==> Replacing(t.relations[r].kind) && t.relations[r].target == id
    ensures TakingEdge(after, t.index, r) ==
            InvalidatingEdge(t.index, t.timestamp, t.relations[r].validAt, t.relations[r].invalidAt)
  {
  }

  lemma AppendReplaces(c: Chain, t: Thought, segments: Segments, trusted: set<nat>, target: nat, e: Edge)
    requires Indexed(c) && Fresh(c, t)
    ensures var after := Append(c, t, segments, trusted);
            e in EdgesOf(after.byTarget, target) && e.kind.IsStrong() ==> IsReplacing(after, target, e)
  {
    AppendKeepsValid(c, t, segments, trusted);
    AppendEdges(c, t, segments, trusted, target);
    AppendIsKnown(c, t, segments, trusted);
    hide Append, Chain.Valid, Contribution, Known, FirstReplacing, StrongEdge, SuccessorKind.IsStrong;
    var after := Append(c, t, segments, trusted);
    if e in Contribution(t, after.ctx, target) && e.kind.IsStrong() {
      EdgeFields(after.ctx, t, target);
      var r := StrongEdgeIsFounded(after.ctx, t, target);
      assert after.ctx.thoughts[e.sourceIndex] == t;
    } else if e in EdgesOf(c.byTarget, target) && e.kind.IsStrong() {
      assert IsReplacing(c, target, e);
      assert after.ctx.thoughts[e.sourceIndex] == c.ctx.thoughts[e.sourceIndex];
    }
  }

  lemma EdgeFields(ctx: Context, t: Thought, target: nat)
    requires ctx.Valid()
    ensures |Contribution(t, ctx, target)| <= 1
    ensures forall e :: e in Contribution(t, ctx, target) ==> IsSource(t, e)
  {
  }

  lemma AppendIsKnown(c: Chain, t: Thought, segments: Segments, trusted: set<nat>)
    requires c.Valid() && Fresh(c, t)
    ensures Known(Append(c, t, segments, trusted).ctx)
  {
    AppendKeepsValid(c, t, segments, trusted);
    hide Append;
  }

  lemma AppendFinds(c: Chain, t: Thought, segments: Segments, trusted: set<nat>, j: nat, k: nat, r: nat)
    requires Indexed(c) && Fresh(c, t)
    requires var after := Append(c, t, segments, trusted);
             j < k < |after.ctx.thoughts| && FirstReplacing(after.ctx.thoughts[k], after.ctx.thoughts[j].id, r)
    ensures var after := Append(c, t, segments, trusted);
            StrongEdge(after.ctx.thoughts[k], r) in EdgesOf(after.byTarget, after.ctx.thoughts[j].id)
  {
    AppendKeepsValid(c, t, segments, trusted);
    AppendIsKnown(c, t, segments, trusted);
    var after := Append(c, t, segments, trusted);
    var id := after.ctx.thoughts[j].id;
    AppendEdges(c, t, segments, trusted, id);
    hide Append, Contribution, FirstReplacing, StrongEdge;
    if k == |c.ctx.thoughts| {
      StrongEdgeIsKept(after.ctx, t, id, r);
    }
  }

  /** Appending keeps the indexes complete. */
  lemma AppendKeepsIndexed(c: Chain, t: Thought, segments: Segments, trusted: set<nat>)
    requires Indexed(c) && Fresh(c, t)
    ensures Indexed(Append(c, t, segments, trusted))
  {
    AppendKeepsValid(c, t, segments, trusted);
    var after := Append(c, t, segments, trusted);
    hide Append, Chain.Valid, FirstReplacing, StrongEdge, IsTaking, IsReplacing, Chain.InvalidatingEdges;
    forall id: nat, e
      ensures e in after.InvalidatingEdges(id) <==> IsTaking(after, id, e)
    {
      AppendTakes(c, t, segments, trusted, id, e);
    }
    forall target: nat, e | e in EdgesOf(after.byTarget, target) && e.kind.IsStrong()
      ensures IsReplacing(after, target, e)
    {
      AppendReplaces(c, t, segments, trusted, target, e);
    }
    forall j: nat, k: nat, r: nat | j < k < |after.ctx.thoughts| &&
                                    FirstReplacing(after.ctx.thoughts[k], after.ctx.thoughts[j].id, r)
      ensures StrongEdge(after.ctx.thoughts[k], r) in EdgesOf(after.byTarget, after.ctx.thoughts[j].id)
    {
      AppendFinds(c, t, segments, trusted, j, k, r);
    }
  }

  // ----- When a reader is told that a thought is out of force

  /** The thought's relation `r` holds at `at`: it was stored by then, has begun and is not over. */
  predicate Holds(t: Thought, r: nat, at: int)
    requires r < |t.relations|
  {
    && t.timestamp <= at
    && (t.relations[r].validAt.None? || t.relations[r].validAt.value <= at)
    && (t.relations[r].invalidAt.None? || at < t.relations[r].invalidAt.value)
  }

  /** The thought at `k` takes `id` out of force at `at` by its relation `r`, and may. */
  predicate TakenBy(c: Chain, k: nat, r: nat, id: nat, at: int)
    requires c.ctx.Valid()
  {
    Takes(c, k, r, id) && Holds(c.ctx.thoughts[k], r, at) && c.LinkAuthorized(k, id)
  }

  lemma TakingIff(c: Chain, id: nat, at: int, audience: Audience)
    requires Indexed(c)
    ensures c.IsInvalidated(id, at) <==> exists k: nat, r: nat :: TakenBy(c, k, r, id, at)
    ensures c.VisiblyInvalidated(id, at, audience) <==>
            exists k: nat, r: nat :: TakenBy(c, k, r, id, at) && c.segments.IsVisible(k, audience)
  {
    assert c.Valid() && c.ctx.Valid();
    hide Chain.Valid, Context.Valid, Chain.LinkAuthorized, Chain.InvalidatingEdges, Segments.IsVisible, Indexed, Takes;
    var edges := c.InvalidatingEdges(id);
    forall i: nat | i < |edges| && InForce(edges[i].timestamp, edges[i].validAt, edges[i].invalidAt, at) &&
                    c.LinkAuthorized(edges[i].sourceIndex, id)
      ensures exists k: nat, r: nat :: TakenBy(c, k, r, id, at) && k == edges[i].sourceIndex
    {
      var k, r := ListedTakes(c, id, i);
      assert TakenBy(c, k, r, id, at);
    }
    forall k: nat, r: nat | TakenBy(c, k, r, id, at)
      ensures exists i: nat :: i < |edges| && edges[i].sourceIndex == k && c.LinkAuthorized(edges[i].sourceIndex, id) &&
                               InForce(edges[i].timestamp, edges[i].validAt, edges[i].invalidAt, at)
    {
      var i := TakingIsListed(c, k, r, id);
    }
    hide InForce, TakenBy;
  }

  lemma ListedTakes(c: Chain, id: nat, i: nat) returns (k: nat, r: nat)
    requires Indexed(c) && i < |c.InvalidatingEdges(id)|
    ensures k < |c.ctx.thoughts| && r < |c.ctx.thoughts[k].relations|
    ensures Takes(c, k, r, id) && c.InvalidatingEdges(id)[i] == TakingEdge(c, k, r)
  {
    hide Chain.InvalidatingEdges;
    var e := c.InvalidatingEdges(id)[i];
    assert IsTaking(c, id, e);
    k, r :| Takes(c, k, r, id) && e == TakingEdge(c, k, r);
  }

  lemma TakingIsListed(c: Chain, k: nat, r: nat, id: nat) returns (i: nat)
    requires Indexed(c) && Takes(c, k, r, id)
    ensures k < |c.ctx.thoughts| && r < |c.ctx.thoughts[k].relations|
    ensures i < |c.InvalidatingEdges(id)| && c.InvalidatingEdges(id)[i] == TakingEdge(c, k, r)
  {
    assert IsTaking(c, id, TakingEdge(c, k, r));
    hide Chain.InvalidatingEdges, Takes;
    i :| i < |c.InvalidatingEdges(id)| && c.InvalidatingEdges(id)[i] == TakingEdge(c, k, r);
  }

  /** A reader is told that a thought is superseded exactly when some stored relation takes it out of force
      at the instant read at (and still does), with effect on this chain, from where the reader may look. */
  lemma InvalidatedIff(v: View, id: nat)
    requires Indexed(v.chain)
    ensures v.Invalidated(id) <==>
            && (exists k: nat, r: nat ::
                  TakenBy(v.chain, k, r, id, v.now) &&
                  (v.audience == Authorized || v.chain.segments.IsVisible(k, Audience.Public)))
            && (v.asOf.Some? ==>
                  exists k: nat, r: nat ::
                    TakenBy(v.chain, k, r, id, v.asOf.value) && v.chain.segments.IsVisible(k, v.audience))
  {
    hide TakenBy, Chain.Valid, Context.Valid, Chain.IsInvalidated, Chain.VisiblyInvalidated;
    TakingIff(v.chain, id, v.now, v.audience);
    if v.asOf.Some? {
      TakingIff(v.chain, id, v.asOf.value, v.audience);
    }
    hide Indexed;
    forall k: nat | !v.chain.segments.HasPrivate()
      ensures v.chain.segments.IsVisible(k, Audience.Public)
    {
      NothingPrivate(v.chain.segments, k);
    }
  }

  lemma NothingPrivate(segments: Segments, k: nat)
    requires !segments.HasPrivate()
    ensures segments.IsVisible(k, Audience.Public)
  {
  }

  // ----- Who stands for a replaced thought

  /** `a` was appended at a later time than `b`, or at the same time further down the chain. */
  ghost predicate Later(a: Thought, b: Thought) {
    b.timestamp < a.timestamp || (b.timestamp == a.timestamp && b.index < a.index)
  }

  /** The sources of strong (or weak) links into a thought, told from the edges. */
  lemma {:induction false} SourcesAre(v: View, edges: seq<Edge>, target: nat, strong: bool, t: Thought)
    requires v.chain.ctx.Valid()
    ensures t in v.SourcesOf(edges, target, strong) <==>
            exists e :: e in edges && e.kind.IsStrong() == strong && v.chain.LinkAuthorized(e.sourceIndex, target) &&
                        v.chain.ctx.ById(e.sourceId) == Some(t)
  {
    hide Context.Valid, Context.ById, Chain.LinkAuthorized;
    if edges != [] {
      SourcesAre(v, edges[..|edges| - 1], target, strong, t);
      assert edges == edges[..|edges| - 1] + [edges[|edges| - 1]];
    }
  }

  /** The thought at `k` replaces `id` first by its relation `r`, which holds at the instant read at, with
      effect on this chain and where the reader may look. */
  ghost predicate ReplacesFor(v: View, k: nat, r: nat, id: nat)
    requires v.chain.ctx.Valid()
  {
    && k < |v.chain.ctx.thoughts| && FirstReplacing(v.chain.ctx.thoughts[k], id, r)
    && Holds(v.chain.ctx.thoughts[k], r, if v.asOf.Some? then v.asOf.value else v.now)
    && v.chain.segments.IsVisible(k, v.audience) && v.chain.LinkAuthorized(k, id)
  }

  /** The strong sources a reader's walk follows from an earlier thought are exactly the thoughts that
      replace it for that reader. */
  lemma StrongSourceIff(v: View, j: nat, k: nat)
    requires Indexed(v.chain) && j < k < |v.chain.ctx.thoughts|
    ensures v.chain.ctx.thoughts[k] in v.Sources(v.chain.ctx.thoughts[j].id, true) <==>
            exists r :: ReplacesFor(v, k, r, v.chain.ctx.thoughts[j].id)
  {
    assert v.chain.Valid();
    hide Segments.IsVisible, Chain.LinkAuthorized, View.Filter, View.SourcesOf, Indexed;
    var c, t, id := v.chain, v.chain.ctx.thoughts[k], v.chain.ctx.thoughts[j].id;
    FilterKeeps(v, EdgesOf(c.byTarget, id));
    SourcesAre(v, v.VisibleEdges(id), id, true, t);
    hide FirstReplacing;
    if t in v.Sources(id, true) {
      var e :| e in v.VisibleEdges(id) && e.kind.IsStrong() && c.LinkAuthorized(e.sourceIndex, id) &&
               c.ctx.ById(e.sourceId) == Some(t);
      var r := StrongEdgeTells(c, id, e);
      assert ReplacesFor(v, k, r, id);
    }
    if r :| ReplacesFor(v, k, r, id) {
      var e := ReplacingIsListed(c, j, k, r);
      assert v.Counts(e);
    }
  }

  /** A strong edge and the stored relation it comes from. */
  ghost predicate EdgeTells(e: Edge, t: Thought, target: nat, r: nat) {
    && FirstReplacing(t, target, r) && r < |t.relations|
    && e.sourceId == t.id && e.sourceIndex == t.index && e.timestamp == t.timestamp && e.kind.IsStrong()
    && e.validAt == t.relations[r].validAt && e.invalidAt == t.relations[r].invalidAt
  }

  lemma StrongEdgeTells(c: Chain, target: nat, e: Edge) returns (r: nat)
    requires Indexed(c) && e in EdgesOf(c.byTarget, target) && e.kind.IsStrong()
    ensures e.sourceIndex < |c.ctx.thoughts| && EdgeTells(e, c.ctx.thoughts[e.sourceIndex], target, r)
  {
    assert IsReplacing(c, target, e);
    r :| FirstReplacing(c.ctx.thoughts[e.sourceIndex], target, r) && e == StrongEdge(c.ctx.thoughts[e.sourceIndex], r);
  }

  lemma ReplacingIsListed(c: Chain, j: nat, k: nat, r: nat) returns (e: Edge)
    requires Indexed(c) && j < k < |c.ctx.thoughts|
    requires FirstReplacing(c.ctx.thoughts[k], c.ctx.thoughts[j].id, r)
    ensures e in EdgesOf(c.byTarget, c.ctx.thoughts[j].id) && EdgeTells(e, c.ctx.thoughts[k], c.ctx.thoughts[j].id, r)
  {
    e := StrongEdge(c.ctx.thoughts[k], r);
  }

  /** A thought that a live one replaces, by a single relation that holds then and now, with effect on this chain
      and where the reader may look, is out of force, and something at least as new stands for it. */
  lemma ReplacedHasSuccessor(v: View, j: nat, k: nat, r: nat)
    requires Indexed(v.chain) && j < k < |v.chain.ctx.thoughts|
    requires ReplacesFor(v, k, r, v.chain.ctx.thoughts[j].id) && Holds(v.chain.ctx.thoughts[k], r, v.now)
    requires !v.Invalidated(v.chain.ctx.thoughts[k].id)
    ensures var id, found := v.chain.ctx.thoughts[j].id, LiveSuccessorOf(v, v.chain.ctx.thoughts[j].id);
            v.Invalidated(id) && found.Some? && !Later(v.chain.ctx.thoughts[k], found.value) &&
              !v.Invalidated(found.value.id)
  {
    hide View.Invalidated, LiveSuccessorOf;
    var id := v.chain.ctx.thoughts[j].id;
    StrongSourceIff(v, j, k);
    SuccessorIsLiveEnd(v, id);
    ReplacedIsOut(v, k, r, id);
  }

  lemma ReplacedIsOut(v: View, k: nat, r: nat, id: nat)
    requires Indexed(v.chain)
    requires ReplacesFor(v, k, r, id) && Holds(v.chain.ctx.thoughts[k], r, v.now)
    ensures v.Invalidated(id)
  {
    InvalidatedIff(v, id);
    var c := v.chain;
    assert TakenBy(c, k, r, id, v.now) && TakenBy(c, k, r, id, v.At());
    hide View.Invalidated, Indexed, Holds, Chain.LinkAuthorized, FirstReplacing;
  }

  /** With nothing filtered out, every such hit brings its live successor into the output, naming it. */
  lemma ReplacedComesOut(v: View, raw: seq<Hit>, allowed: Allowed, i: nat, j: nat, k: nat, r: nat)
    requires Indexed(v.chain) && FromChain(v, raw) && (forall t :: allowed(t))
    requires i < |raw| && j < k < |v.chain.ctx.thoughts| && raw[i].thought == v.chain.ctx.thoughts[j]
    requires ReplacesFor(v, k, r, raw[i].thought.id) && Holds(v.chain.ctx.thoughts[k], r, v.now)
    requires !v.Invalidated(v.chain.ctx.thoughts[k].id)
    ensures exists s :: 0 <= s < |Redirected(v, raw, allowed)| &&
                        !Later(v.chain.ctx.thoughts[k], Redirected(v, raw, allowed)[s].thought) &&
                        !v.Invalidated(Redirected(v, raw, allowed)[s].thought.id) &&
                        raw[i].thought.id in Redirected(v, raw, allowed)[s].successorOf
  {
    hide View.Invalidated, LiveSuccessorOf, Later, ReplacesFor, After, FromChain, Sound, FirstReplacing, Holds;
    ReplacedHasSuccessor(v, j, k, r);
    RedirectedIsSound(v, raw, allowed);
    assert Handled(v, allowed, Redirected(v, raw, allowed), raw[i]);
    hide Indexed;
    var found := LiveSuccessorOf(v, raw[i].thought.id);
    assert AllowedSuccessor(v, allowed, raw[i].thought.id) == found;
    var s := Slot(Redirected(v, raw, allowed), found.value.id);
    assert Redirected(v, raw, allowed)[s].thought == found.value;
  }

  // ----- Any number of appends

  ghost predicate AllFresh(c: Chain, appended: seq<Appended>)
    decreases |appended|
  {
    && c.Valid()
    && (appended != [] ==>
          var next := appended[0];
          && Fresh(c, next.thought) && AllFresh(Append(c, next.thought, next.segments, next.trusted), appended[1..]))
  }

  function AppendAll(c: Chain, appended: seq<Appended>): Chain
    requires AllFresh(c, appended)
    decreases |appended|
  {
    if appended == [] then c
    else
      var next := appended[0];
      AppendAll(Append(c, next.thought, next.segments, next.trusted), appended[1..])
  }

  /** Every chain that appends build has both indexes complete. */
  lemma {:induction false} AppendsKeepIndexed(c: Chain, appended: seq<Appended>)
    requires Indexed(c) && AllFresh(c, appended)
    ensures Indexed(AppendAll(c, appended))
    decreases |appended|
  {
    hide Append, Indexed, Fresh, Chain.Valid;
    if appended != [] {
      var next := appended[0];
      AppendKeepsIndexed(c, next.thought, next.segments, next.trusted);
      AppendsKeepIndexed(Append(c, next.thought, next.segments, next.trusted), appended[1..]);
    }
  }

  // ----- Whose links have effect

  /** Whose links have effect: whatever was written in the open, and of the rest what is signed, passed verification
      and shares its agent with the target or its key with those the chain trusts. */
  lemma AuthorizedIff(c: Chain, commits: seq<Commit>, quarantine: seq<nat>, k: nat, id: nat)
    requires c.Valid() && InOrder(commits) && k < |c.ctx.thoughts|
    requires c.segments == MapOf(commits).SetQuarantine(quarantine)
    ensures c.LinkAuthorized(k, id) <==>
            || !PrivateByHistory(commits, k)
            || (&& c.ctx.thoughts[k].signed && k !in quarantine
                && (k in c.trusted || (c.ctx.ById(id).Some? && c.ctx.ById(id).value.agent == c.ctx.thoughts[k].agent)))
  {
    KindOfMap(commits, quarantine, k);
    hide PrivateByHistory, MapOf, Segments.KindAt, Context.ById, SortDedup, BinarySearch;
  }

  lemma KindOfMap(commits: seq<Commit>, quarantine: seq<nat>, k: nat)
    requires InOrder(commits)
    ensures var held := MapOf(commits).SetQuarantine(quarantine);
            && (held.KindAt(k) == SegmentKind.Private <==> PrivateByHistory(commits, k))
            && (BinarySearch(held.quarantined, k, 0, |held.quarantined|) <==> k in quarantine)
            && (!held.HasPrivate() ==> held.KindAt(k) == SegmentKind.Public)
  {
    KindFollowsHistory(commits, k);
    MapIsBelow(commits);
    SortDedupIncreasing(quarantine);
    var held := MapOf(commits).SetQuarantine(quarantine);
    assert held.quarantined[..|held.quarantined|] == held.quarantined;
  }

  // ----- Contested thoughts

  /** `e` is a link into `target` that counts for the reader: stored and begun by the instant read at, not over
      then, and from where the reader may look. */
  ghost predicate CountsFor(v: View, target: nat, e: Edge) {
    var at := if v.asOf.Some? then v.asOf.value else v.now;
    && e in EdgesOf(v.chain.byTarget, target)
    && e.timestamp <= at && (e.validAt.None? || e.validAt.value <= at) && (e.invalidAt.None? || at < e.invalidAt.value)
    && v.chain.segments.IsVisible(e.sourceIndex, v.audience)
  }

  lemma VisibleEdgesCount(v: View, target: nat, e: Edge)
    ensures e in v.VisibleEdges(target) <==> CountsFor(v, target, e)
  {
    FilterKeeps(v, EdgesOf(v.chain.byTarget, target));
    hide Segments.IsVisible, View.Filter;
  }

  /** What a reader is told of a thought: superseded when it is out of force, contested when it is not but some
      link into it counts, and current otherwise. */
  lemma StatusIff(v: View, id: nat)
    requires v.chain.ctx.Valid()
    ensures v.Status(id) == Superseded <==> v.Invalidated(id)
    ensures v.Status(id) == Contested <==> !v.Invalidated(id) && exists e :: CountsFor(v, id, e)
  {
    hide View.Invalidated, CountsFor, View.Filter;
    forall e
      ensures e in v.VisibleEdges(id) <==> CountsFor(v, id, e)
    {
      VisibleEdgesCount(v, id, e);
    }
    assert v.VisibleEdges(id) != [] ==> v.VisibleEdges(id)[0] in v.VisibleEdges(id);
  }

  /** `t` is live and contests `target` for the reader, by a link that neither supersedes, corrects nor
      invalidates. */
  ghost predicate Contests(v: View, target: nat, t: Thought)
    requires v.chain.ctx.Valid()
  {
    && !v.Invalidated(t.id)
    && exists e :: CountsFor(v, target, e) && (e.kind.Contradicts? || e.kind.Contests?) &&
                   v.chain.LinkAuthorized(e.sourceIndex, target) && v.chain.ctx.ById(e.sourceId) == Some(t)
  }

  /** The contester of a thought is a live one that contests it and that no other such is newer than. */
  lemma ContesterIs(v: View, id: nat)
    requires v.chain.ctx.Valid()
    ensures var found := LiveContester(v, id);
            && (found.Some? ==> Contests(v, id, found.value))
            && forall t :: Contests(v, id, t) ==> found.Some? && !Later(t, found.value)
  {
    NewestLiveIs(v, v.Sources(id, false));
    hide View.Invalidated, View.Filter, View.SourcesOf, CountsFor, Chain.LinkAuthorized, Context.ById, NewestLive;
    forall t
      ensures t in v.Sources(id, false) <==>
              exists e :: CountsFor(v, id, e) && (e.kind.Contradicts? || e.kind.Contests?) &&
                          v.chain.LinkAuthorized(e.sourceIndex, id) && v.chain.ctx.ById(e.sourceId) == Some(t)
    {
      SourcesAre(v, v.VisibleEdges(id), id, false, t);
      forall e
        ensures e in v.VisibleEdges(id) <==> CountsFor(v, id, e)
      {
        VisibleEdgesCount(v, id, e);
      }
    }
  }
}
