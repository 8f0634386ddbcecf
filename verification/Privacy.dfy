/** What is appended out of a public reader's sight changes nothing that reader gets. */
module Privacy {
  import opened Wrappers
  import opened Audience
  import opened LineageIndex
  import opened VersionView
  import opened ChainGrowth
  import opened LiveSuccessor
  import opened Redirect

  // ----- What a public reader's answers depend on

  /** Position `n` is hidden from public readers, and nothing changed for the positions before it. */
  ghost predicate HiddenAt(before: Segments, after: Segments, n: nat) {
    && !after.IsVisible(n, Audience.Public)
    && forall p: nat :: p < n ==> after.IsVisible(p, Audience.Public) == before.IsVisible(p, Audience.Public)
  }

  /** A position a public reader may see may replace any thought. */
  lemma VisibleIsAuthorized(c: Chain, p: nat, target: nat)
    requires c.ctx.Valid() && c.segments.IsVisible(p, Audience.Public)
    ensures c.LinkAuthorized(p, target)
  {
  }

  /** An invalidating link of `edges` that a public reader sees holds at `at`. */
  ghost predicate SeenInvalidated(segments: Segments, edges: seq<InvalidatingEdge>, at: int) {
    exists k :: 0 <= k < |edges| && InForce(edges[k].timestamp, edges[k].validAt, edges[k].invalidAt, at)
                && segments.IsVisible(edges[k].sourceIndex, Audience.Public)
  }

  /** Public readers count visible links only, on every chain. */
  lemma InvalidatedIsSeen(c: Chain, id: nat, at: int)
    requires c.ctx.Valid()
    ensures c.VisiblyInvalidated(id, at, Audience.Public) <==> SeenInvalidated(c.segments, c.InvalidatingEdges(id), at)
    ensures c.IsInvalidatedFor(id, at, Audience.Public) <==> SeenInvalidated(c.segments, c.InvalidatingEdges(id), at)
  {
  }

  /** Both views answer alike about every thought: is it superseded, which links into it are seen, and
      who replaces or contests it. */
  ghost predicate Alike(v: View, w: View)
    requires v.chain.ctx.Valid() && w.chain.ctx.Valid()
  {
    forall id ::
      && v.Invalidated(id) == w.Invalidated(id) && v.VisibleEdges(id) == w.VisibleEdges(id)
      && v.Sources(id, true) == w.Sources(id, true) && v.Sources(id, false) == w.Sources(id, false)
  }

  lemma {:induction false} PushedAlike(v: View, w: View, best: Option<Thought>, sources: seq<Thought>)
    requires v.chain.ctx.Valid() && w.chain.ctx.Valid() && Alike(v, w)
    ensures Pushed(v, sources) == Pushed(w, sources) && Improved(v, best, sources) == Improved(w, best, sources)
    ensures NewestLive(v, sources) == NewestLive(w, sources)
  {
    hide View.Invalidated, View.Sources, View.VisibleEdges;
    if sources != [] {
      PushedAlike(v, w, best, sources[..|sources| - 1]);
    }
  }

  lemma {:induction false} WalkAlike(v: View, w: View, frontier: seq<nat>, visited: set<nat>, depth: nat,
                                     best: Option<Thought>)
    requires v.chain.ctx.Valid() && w.chain.ctx.Valid() && Alike(v, w)
    ensures Walk(v, frontier, visited, depth, best) == Walk(w, frontier, visited, depth, best)
    decreases if depth < MAX_LINEAGE_DEPTH then MAX_LINEAGE_DEPTH - depth else 0, |frontier|
  {
    hide View.Invalidated, View.Sources, View.VisibleEdges, Pushed, Improved;
    if frontier != [] {
      var current, rest := frontier[|frontier| - 1], frontier[..|frontier| - 1];
      if depth + 1 > MAX_LINEAGE_DEPTH || current in visited {
        WalkAlike(v, w, rest, visited, depth + 1, best);
      } else {
        var sources := v.Sources(current, true);
        assert sources == w.Sources(current, true);
        PushedAlike(v, w, best, sources);
        WalkAlike(v, w, rest + Pushed(v, sources), visited + {current}, depth + 1, Improved(v, best, sources));
      }
    }
  }

  lemma RepliesAlike(v: View, w: View, allowed: Allowed, id: nat)
    requires v.chain.ctx.Valid() && w.chain.ctx.Valid() && Alike(v, w)
    ensures v.Invalidated(id) == w.Invalidated(id) && v.Status(id) == w.Status(id)
    ensures LiveSuccessorOf(v, id) == LiveSuccessorOf(w, id) && LiveContester(v, id) == LiveContester(w, id)
    ensures AllowedSuccessor(v, allowed, id) == AllowedSuccessor(w, allowed, id)
    ensures AllowedContester(v, allowed, id) == AllowedContester(w, allowed, id)
  {
    hide View.Invalidated, View.Sources, View.VisibleEdges, Walk;
    WalkAlike(v, w, [id], {}, 0, None);
    PushedAlike(v, w, None, v.Sources(id, false));
  }

  lemma {:induction false} AfterAlike(v: View, w: View, raw: seq<Hit>, allowed: Allowed, k: nat)
    requires v.chain.ctx.Valid() && w.chain.ctx.Valid() && Alike(v, w) && k <= |raw|
    ensures After(v, raw, allowed, k) == After(w, raw, allowed, k)
  {
    hide Alike, Place, View.Invalidated, AllowedSuccessor, AllowedContester;
    if k > 0 {
      AfterAlike(v, w, raw, allowed, k - 1);
      RepliesAlike(v, w, allowed, raw[k - 1].thought.id);
    }
  }

  // ----- One hidden append

  /** Links from hidden positions are not seen, and links from earlier ones are seen as before. */
  lemma {:induction false} FilterAppended(v: View, w: View, edges: seq<Edge>, more: seq<Edge>, n: nat)
    requires v.audience == w.audience == Audience.Public && v.At() == w.At() &&
             HiddenAt(v.chain.segments, w.chain.segments, n)
    requires forall k :: 0 <= k < |edges| ==> edges[k].sourceIndex < n
    requires forall k :: 0 <= k < |more| ==> more[k].sourceIndex == n
    ensures w.Filter(edges + more) == v.Filter(edges)
  {
    hide Segments.IsVisible, View.At, InForce;
    if more != [] {
      var front := more[..|more| - 1];
      FilterAppended(v, w, edges, front, n);
      assert (edges + more)[..|edges + more| - 1] == edges + front;
    } else if edges != [] {
      assert edges + more == edges;
      var front := edges[..|edges| - 1];
      FilterAppended(v, w, front, [], n);
      assert front + [] == front;
      assert v.Counts(edges[|edges| - 1]) == w.Counts(edges[|edges| - 1]);
    } else {
      assert edges + more == [];
    }
  }

  /** The sources of edges both chains know and a public reader sees. */
  lemma {:induction false} SourcesAlike(v: View, w: View, edges: seq<Edge>, target: nat, strong: bool)
    requires v.chain.ctx.Valid() && w.chain.ctx.Valid()
    requires forall k :: 0 <= k < |edges| ==>
               && v.chain.ctx.ById(edges[k].sourceId) == w.chain.ctx.ById(edges[k].sourceId)
               && v.chain.segments.IsVisible(edges[k].sourceIndex, Audience.Public)
               && w.chain.segments.IsVisible(edges[k].sourceIndex, Audience.Public)
    ensures v.SourcesOf(edges, target, strong) == w.SourcesOf(edges, target, strong)
  {
    hide Segments.IsVisible, Context.ById, Chain.LinkAuthorized;
    if edges != [] {
      var last := edges[|edges| - 1];
      SourcesAlike(v, w, edges[..|edges| - 1], target, strong);
      VisibleIsAuthorized(v.chain, last.sourceIndex, target);
      VisibleIsAuthorized(w.chain, last.sourceIndex, target);
    }
  }

  lemma SeenAppended(before: Segments, after: Segments, edges: seq<InvalidatingEdge>, more: seq<InvalidatingEdge>,
                     n: nat, at: int)
    requires HiddenAt(before, after, n)
    requires forall k :: 0 <= k < |edges| ==> edges[k].sourceIndex < n
    requires forall k :: 0 <= k < |more| ==> more[k].sourceIndex == n
    ensures SeenInvalidated(before, edges, at) <==> SeenInvalidated(after, edges + more, at)
  {
    hide Segments.IsVisible, InForce;
    var all := edges + more;
    assert forall k :: |edges| <= k < |all| ==> all[k].sourceIndex == n;
    if SeenInvalidated(before, edges, at) {
      var k :| 0 <= k < |edges| && InForce(edges[k].timestamp, edges[k].validAt, edges[k].invalidAt, at)
               && before.IsVisible(edges[k].sourceIndex, Audience.Public);
      assert all[k] == edges[k];
    }
    if SeenInvalidated(after, all, at) {
      var k :| 0 <= k < |all| && InForce(all[k].timestamp, all[k].validAt, all[k].invalidAt, at)
               && after.IsVisible(all[k].sourceIndex, Audience.Public);
    }
  }

  /** `t` is appended where public readers may not see it. */
  ghost predicate HiddenAppend(c: Chain, t: Thought, segments: Segments) {
    c.Valid() && Fresh(c, t) && HiddenAt(c.segments, segments, t.index)
  }

  lemma InvalidatedAlike(v: View, t: Thought, segments: Segments, trusted: set<nat>, id: nat)
    requires v.audience == Audience.Public && HiddenAppend(v.chain, t, segments)
    ensures var w := v.(chain := Append(v.chain, t, segments, trusted));
            w.chain.ctx.Valid() && w.Invalidated(id) == v.Invalidated(id)
  {
    hide Observe, ObserveInvalidating, InvalidatingLinks, Chain.IsInvalidatedFor, Chain.VisiblyInvalidated,
         SeenInvalidated, HiddenAt;
    var c, after := v.chain, Append(v.chain, t, segments, trusted);
    AppendInvalidatingEdges(c, t, segments, trusted, id);
    InvalidatingLinksSource(t, |t.relations|, id);
    var edges, more := c.InvalidatingEdges(id), InvalidatingLinks(t, |t.relations|, id);
    forall k | 0 <= k < |edges|
      ensures edges[k].sourceIndex < t.index
    {
      assert edges[k] in c.invalidating[id];
    }
    assert forall k :: 0 <= k < |more| ==> more[k] in more;
    SeenAppended(c.segments, segments, edges, more, t.index, v.now);
    InvalidatedIsSeen(c, id, v.now);
    InvalidatedIsSeen(after, id, v.now);
    if v.asOf.Some? {
      SeenAppended(c.segments, segments, edges, more, t.index, v.asOf.value);
      InvalidatedIsSeen(c, id, v.asOf.value);
      InvalidatedIsSeen(after, id, v.asOf.value);
    }
  }

  lemma EdgesAlike(v: View, t: Thought, segments: Segments, trusted: set<nat>, id: nat)
    requires v.audience == Audience.Public && HiddenAppend(v.chain, t, segments)
    ensures var w := v.(chain := Append(v.chain, t, segments, trusted));
            && w.chain.ctx.Valid() && w.VisibleEdges(id) == v.VisibleEdges(id)
            && w.Sources(id, true) == v.Sources(id, true) && w.Sources(id, false) == v.Sources(id, false)
  {
    hide Observe, ObserveInvalidating, Contribution, View.Filter, View.SourcesOf, HiddenAt, Segments.IsVisible;
    var c, w := v.chain, v.(chain := Append(v.chain, t, segments, trusted));
    AppendEdges(c, t, segments, trusted, id);
    ContributionSource(t, w.chain.ctx, id);
    var edges, more := EdgesOf(c.byTarget, id), Contribution(t, w.chain.ctx, id);
    forall k | 0 <= k < |edges|
      ensures edges[k].sourceIndex < t.index
    {
      assert edges[k] in c.byTarget[id];
    }
    assert forall k :: 0 <= k < |more| ==> more[k] in more;
    FilterAppended(v, w, edges, more, t.index);
    SeenEdges(v, t, segments, trusted, id);
    SourcesAlike(v, w, v.VisibleEdges(id), id, true);
    SourcesAlike(v, w, v.VisibleEdges(id), id, false);
  }

  lemma SeenEdges(v: View, t: Thought, segments: Segments, trusted: set<nat>, id: nat)
    requires v.audience == Audience.Public && HiddenAppend(v.chain, t, segments)
    ensures var ctx, edges := Append(v.chain, t, segments, trusted).ctx, v.VisibleEdges(id);
            && ctx.Valid()
            && forall k :: 0 <= k < |edges| ==>
                 && v.chain.ctx.ById(edges[k].sourceId) == ctx.ById(edges[k].sourceId)
                 && v.chain.segments.IsVisible(edges[k].sourceIndex, Audience.Public)
                 && segments.IsVisible(edges[k].sourceIndex, Audience.Public)
  {
    hide Observe, ObserveInvalidating, Segments.IsVisible, View.Filter;
    var edges := v.VisibleEdges(id);
    FilterKeeps(v, EdgesOf(v.chain.byTarget, id));
    forall k | 0 <= k < |edges|
      ensures v.chain.ctx.ById(edges[k].sourceId) == Append(v.chain, t, segments, trusted).ctx.ById(edges[k].sourceId)
      ensures v.chain.segments.IsVisible(edges[k].sourceIndex, Audience.Public)
      ensures segments.IsVisible(edges[k].sourceIndex, Audience.Public)
    {
      assert edges[k] in edges && edges[k] in v.chain.byTarget[id];
    }
  }

  /** A hidden append changes no answer a public reader's view is made of. */
  lemma HiddenAppendAlike(v: View, t: Thought, segments: Segments, trusted: set<nat>)
    requires v.audience == Audience.Public && HiddenAppend(v.chain, t, segments)
    ensures var w := v.(chain := Append(v.chain, t, segments, trusted)); w.chain.Valid() && Alike(v, w)
  {
    AppendKeepsValid(v.chain, t, segments, trusted);
    hide Append, HiddenAppend, View.Invalidated, View.VisibleEdges, View.Sources, Chain.Valid;
    forall id: nat
      ensures var w := v.(chain := Append(v.chain, t, segments, trusted));
              && v.Invalidated(id) == w.Invalidated(id) && v.VisibleEdges(id) == w.VisibleEdges(id)
              && v.Sources(id, true) == w.Sources(id, true) && v.Sources(id, false) == w.Sources(id, false)
    {
      InvalidatedAlike(v, t, segments, trusted, id);
      EdgesAlike(v, t, segments, trusted, id);
    }
  }

  // ----- Any number of hidden appends

  function Grown(c: Chain, appended: seq<Appended>): Chain
    requires AllHidden(c, appended)
    decreases |appended|
  {
    if appended == [] then c
    else
      var next := appended[0];
      Grown(Append(c, next.thought, next.segments, next.trusted), appended[1..])
  }

  ghost predicate AllHidden(c: Chain, appended: seq<Appended>)
    decreases |appended|
  {
    && c.Valid()
    && (appended != [] ==>
          var next := appended[0];
          && HiddenAppend(c, next.thought, next.segments)
          && AllHidden(Append(c, next.thought, next.segments, next.trusted), appended[1..]))
  }

  /** However many thoughts are appended out of a public reader's sight, that reader gets the same
      status, live successor and contester for every thought, and the same redirected hits. */
  lemma {:induction false} HiddenAppendsChangeNothing(v: View, appended: seq<Appended>, raw: seq<Hit>,
                                                      allowed: Allowed, id: nat)
    requires v.audience == Audience.Public && AllHidden(v.chain, appended)
    ensures var w := v.(chain := Grown(v.chain, appended));
            && w.chain.ctx.Valid()
            && w.Status(id) == v.Status(id)
            && LiveSuccessorOf(w, id) == LiveSuccessorOf(v, id) && LiveContester(w, id) == LiveContester(v, id)
            && Redirected(w, raw, allowed) == Redirected(v, raw, allowed)
    decreases |appended|
  {
    hide Append, HiddenAppend, View.Status, LiveSuccessorOf, LiveContester, After;
    if appended != [] {
      var next := appended[0];
      var w := v.(chain := Append(v.chain, next.thought, next.segments, next.trusted));
      HiddenAppendAlike(v, next.thought, next.segments, next.trusted);
      RepliesAlike(v, w, allowed, id);
      AfterAlike(v, w, raw, allowed, |raw|);
      HiddenAppendsChangeNothing(w, appended[1..], raw, allowed, id);
    }
  }

  // ----- When the segment map of a governed chain hides a position

  /** By the history of its records: a position is hidden, and what lies before it is shown as before,
      when it is a governance record itself or follows one that opened a private segment. */
  lemma HistoryHides(commits: seq<Commit>, n: nat, p: nat)
    requires InOrder(commits) && n <= |commits| && (n < |commits| ==> p <= commits[n].index)
    ensures HiddenAt(MapOf(commits[..n]), MapOf(commits), p) <==> PrivateByHistory(commits, p)
  {
    hide PrivateByHistory, MapOf, Segments.KindAt;
    MapIsBelow(commits);
    MapIsBelow(commits[..n]);
    KindFollowsHistory(commits, p);
    forall q: nat | q < p
      ensures MapOf(commits).IsVisible(q, Audience.Public) == MapOf(commits[..n]).IsVisible(q, Audience.Public)
    {
      LaterCommitsKeepPast(commits, n, q);
    }
  }
}
