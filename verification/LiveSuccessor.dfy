/** The walk from a superseded thought to what stands for it now. */
module LiveSuccessor {
  import opened Wrappers
  import opened LineageIndex
  import opened VersionView

  const MAX_LINEAGE_DEPTH: nat := 64

  /** Later in time, or at the same time further down the chain. */
  predicate Newer(a: Thought, b: Thought) {
    a.timestamp > b.timestamp || (a.timestamp == b.timestamp && a.index > b.index)
  }

  // ----- The walk

  /** Superseded replacements go on the stack, in link order. */
  function Pushed(v: View, sources: seq<Thought>): seq<nat>
    requires v.chain.ctx.Valid()
  {
    if sources == [] then []
    else
      var last := sources[|sources| - 1];
      Pushed(v, sources[..|sources| - 1]) + if v.Invalidated(last.id) then [last.id] else []
  }

  /** The newest live replacement seen so far. */
  function Improved(v: View, best: Option<Thought>, sources: seq<Thought>): Option<Thought>
    requires v.chain.ctx.Valid()
  {
    if sources == [] then best
    else
      var before, last := Improved(v, best, sources[..|sources| - 1]), sources[|sources| - 1];
      if !v.Invalidated(last.id) && (before.None? || Newer(last, before.value)) then Some(last) else before
  }

  /** The rest of the walk: pop a thought; past the depth limit, or when it was visited before, drop it. */
  function Walk(v: View, frontier: seq<nat>, visited: set<nat>, depth: nat, best: Option<Thought>): Option<Thought>
    requires v.chain.ctx.Valid()
    decreases if depth < MAX_LINEAGE_DEPTH then MAX_LINEAGE_DEPTH - depth else 0, |frontier|
  {
    if frontier == [] then best
    else
      var current, rest := frontier[|frontier| - 1], frontier[..|frontier| - 1];
      if depth + 1 > MAX_LINEAGE_DEPTH || current in visited then Walk(v, rest, visited, depth + 1, best)
      else
        var sources := v.Sources(current, true);
        Walk(v, rest + Pushed(v, sources), visited + {current}, depth + 1, Improved(v, best, sources))
  }

  lemma OneMoreSource(v: View, best: Option<Thought>, sources: seq<Thought>, k: nat)
    requires v.chain.ctx.Valid() && k < |sources|
    ensures var pushed, before, source := Pushed(v, sources[..k]), Improved(v, best, sources[..k]), sources[k];
            && Pushed(v, sources[..k + 1]) == pushed + (if v.Invalidated(source.id) then [source.id] else [])
            && Improved(v, best, sources[..k + 1]) ==
               if !v.Invalidated(source.id) && (before.None? || Newer(source, before.value)) then Some(source)
                   else before
  {
    assert sources[..k + 1][..k] == sources[..k];
  }

  /** The live thought that stands for `id` now, if the walk finds one. */
  function LiveSuccessorOf(v: View, id: nat): Option<Thought>
    requires v.chain.ctx.Valid()
  {
    Walk(v, [id], {}, 0, None)
  }

  method Follow(v: View, id: nat) returns (best: Option<Thought>)
    requires v.chain.ctx.Valid()
    ensures best == LiveSuccessorOf(v, id)
  {
    hide View.Sources, View.Invalidated, Newer;
    best := None;
    var visited: set<nat> := {};
    var frontier := [id];
    var depth := 0;
    while frontier != []
      invariant depth >= 0
      invariant Walk(v, frontier, visited, depth, best) == LiveSuccessorOf(v, id)
      decreases if depth < MAX_LINEAGE_DEPTH then MAX_LINEAGE_DEPTH - depth else 0, |frontier|
    {
      var current := frontier[|frontier| - 1];
      ghost var whole := frontier;
      frontier := frontier[..|frontier| - 1];
      depth := depth + 1;
      if depth > MAX_LINEAGE_DEPTH || current in visited {
        continue;
      }
      visited := visited + {current};
      var sources := v.Sources(current, true);
      ghost var rest, bestBefore := frontier, best;
      for k := 0 to |sources|
        invariant frontier == rest + Pushed(v, sources[..k])
        invariant best == Improved(v, bestBefore, sources[..k])
      {
        var source := sources[k];
        OneMoreSource(v, bestBefore, sources, k);
        if v.Invalidated(source.id) {
          frontier := frontier + [source.id];
        } else if best.None? || Newer(source, best.value) {
          best := Some(source);
        }
      }
      assert sources[..|sources|] == sources;
    }
  }

  // ----- Reachability

  /** `next` is a superseded thought that replaced `id` by a visible authorized strong link. */
  ghost predicate Replaced(v: View, id: nat, next: nat)
    requires v.chain.ctx.Valid()
  {
    exists k :: 0 <= k < |v.Sources(id, true)| && v.Sources(id, true)[k].id == next && v.Invalidated(next)
  }

  /** `path` leads from `id` through superseded replacements. */
  ghost predicate Path(v: View, path: seq<nat>, id: nat)
    requires v.chain.ctx.Valid()
  {
    && path != [] && path[0] == id
    && forall k :: 0 <= k < |path| - 1 ==> Replaced(v, path[k], path[k + 1])
  }

  /** `u` is `id` or a superseded thought reached from it through superseded replacements. */
  ghost predicate Reaches(v: View, id: nat, u: nat)
    requires v.chain.ctx.Valid()
  {
    exists path :: Path(v, path, id) && path[|path| - 1] == u
  }

  /** `t` is a live end of `id`'s supersessions. */
  ghost predicate LiveEnd(v: View, id: nat, t: Thought)
    requires v.chain.ctx.Valid()
  {
    !v.Invalidated(t.id) && exists u :: Reaches(v, id, u) && t in v.Sources(u, true)
  }

  lemma ReachesSelf(v: View, id: nat)
    requires v.chain.ctx.Valid()
    ensures Reaches(v, id, id)
  {
    assert Path(v, [id], id);
  }

  lemma ReachesNext(v: View, id: nat, u: nat, next: nat)
    requires v.chain.ctx.Valid() && Reaches(v, id, u) && Replaced(v, u, next)
    ensures Reaches(v, id, next)
  {
    var path :| Path(v, path, id) && path[|path| - 1] == u;
    assert Path(v, path + [next], id);
  }

  lemma {:induction false} PushedAre(v: View, sources: seq<Thought>)
    requires v.chain.ctx.Valid()
    ensures forall id :: id in Pushed(v, sources) <==>
                         v.Invalidated(id) && exists k :: 0 <= k < |sources| && sources[k].id == id
  {
    if sources != [] {
      PushedAre(v, sources[..|sources| - 1]);
      assert sources == sources[..|sources| - 1] + [sources[|sources| - 1]];
    }
  }

  /** The improved best is the old one or a live source, and no live source is newer. */
  lemma {:induction false} ImprovedIs(v: View, best: Option<Thought>, sources: seq<Thought>)
    requires v.chain.ctx.Valid()
    ensures var after := Improved(v, best, sources);
            && (after == best || (after.Some? && after.value in sources && !v.Invalidated(after.value.id)))
            && (best.Some? ==> after.Some? && !Newer(best.value, after.value))
            && forall t :: t in sources && !v.Invalidated(t.id) ==> after.Some? && !Newer(t, after.value)
  {
    hide View.Invalidated, Context.Valid;
    if sources != [] {
      ImprovedIs(v, best, sources[..|sources| - 1]);
      assert sources == sources[..|sources| - 1] + [sources[|sources| - 1]];
    }
  }

  // ----- Whatever the graph: the answer is live, reachable, and no older than a direct live replacement

  ghost predicate AllReach(v: View, id: nat, ids: seq<nat>)
    requires v.chain.ctx.Valid()
  {
    forall k :: 0 <= k < |ids| ==> Reaches(v, id, ids[k])
  }

  lemma {:induction false} WalkSound(v: View, id: nat, frontier: seq<nat>, visited: set<nat>, depth: nat,
                                     best: Option<Thought>)
    requires v.chain.ctx.Valid() && AllReach(v, id, frontier)
    requires best.Some? ==> LiveEnd(v, id, best.value)
    ensures var found := Walk(v, frontier, visited, depth, best);
            && (found.Some? ==> LiveEnd(v, id, found.value))
            && (best.Some? ==> found.Some? && !Newer(best.value, found.value))
    decreases if depth < MAX_LINEAGE_DEPTH then MAX_LINEAGE_DEPTH - depth else 0, |frontier|
  {
    hide Pushed, Improved, View.Sources, View.Invalidated, Reaches, AllReach, LiveEnd;
    if frontier != [] {
      FrontierReach(v, id, frontier);
      NewerTransitive();
      var current, rest := frontier[|frontier| - 1], frontier[..|frontier| - 1];
      if depth + 1 > MAX_LINEAGE_DEPTH || current in visited {
        WalkSound(v, id, rest, visited, depth + 1, best);
      } else {
        var sources := v.Sources(current, true);
        var pushed, improved := Pushed(v, sources), Improved(v, best, sources);
        ImprovedReaches(v, id, current, best);
        PushedReach(v, id, current);
        AllReachConcat(v, id, rest, pushed);
        WalkSound(v, id, rest + pushed, visited + {current}, depth + 1, improved);
      }
    }
  }

  lemma FrontierReach(v: View, id: nat, frontier: seq<nat>)
    requires v.chain.ctx.Valid() && frontier != [] && AllReach(v, id, frontier)
    ensures Reaches(v, id, frontier[|frontier| - 1]) && AllReach(v, id, frontier[..|frontier| - 1])
  {
    hide Reaches;
  }

  lemma AllReachConcat(v: View, id: nat, a: seq<nat>, b: seq<nat>)
    requires v.chain.ctx.Valid() && AllReach(v, id, a) && AllReach(v, id, b)
    ensures AllReach(v, id, a + b)
  {
    hide Reaches;
  }

  lemma ImprovedReaches(v: View, id: nat, current: nat, best: Option<Thought>)
    requires v.chain.ctx.Valid() && Reaches(v, id, current)
    requires best.Some? ==> LiveEnd(v, id, best.value)
    ensures var improved := Improved(v, best, v.Sources(current, true));
            && (improved.Some? ==> LiveEnd(v, id, improved.value))
            && (best.Some? ==> improved.Some? && !Newer(best.value, improved.value))
  {
    hide Improved, Reaches, View.Sources, View.Invalidated, Newer;
    ImprovedIs(v, best, v.Sources(current, true));
  }

  lemma PushedReach(v: View, id: nat, current: nat)
    requires v.chain.ctx.Valid() && Reaches(v, id, current)
    ensures AllReach(v, id, Pushed(v, v.Sources(current, true)))
  {
    var pushed := Pushed(v, v.Sources(current, true));
    PushedAre(v, v.Sources(current, true));
    forall k | 0 <= k < |pushed|
      ensures Reaches(v, id, pushed[k])
    {
      assert pushed[k] in pushed;
      ReachesNext(v, id, current, pushed[k]);
    }
  }

  /** The walk ends on every graph; what it returns is a live end of the supersessions, and no
      live direct replacement is newer. */
  lemma SuccessorIsLiveEnd(v: View, id: nat)
    requires v.chain.ctx.Valid()
    ensures var found := LiveSuccessorOf(v, id);
            && (found.Some? ==> LiveEnd(v, id, found.value))
            && forall t :: t in v.Sources(id, true) && !v.Invalidated(t.id) ==> found.Some? && !Newer(t, found.value)
  {
    var sources := v.Sources(id, true);
    ReachesSelf(v, id);
    ImprovedIs(v, None, sources);
    PushedReach(v, id, id);
    assert [] + Pushed(v, sources) == Pushed(v, sources);
    WalkSound(v, id, Pushed(v, sources), {} + {id}, 1, Improved(v, None, sources));
  }

  // ----- Within the budget: the answer is the newest live end

  /** Links from `part` to superseded thoughts: what the walk pushes when it expands all of `part`. */
  ghost function LinkCount(v: View, part: set<nat>): nat
    requires v.chain.ctx.Valid()
  {
    if part == {} then 0
    else
      var u :| u in part;
      |Pushed(v, v.Sources(u, true))| + LinkCount(v, part - {u})
  }

  /** Superseded replacements of the thoughts in `part` are in `part`. */
  ghost predicate Closed(v: View, part: set<nat>)
    requires v.chain.ctx.Valid()
  {
    forall u, next :: u in part && next in Pushed(v, v.Sources(u, true)) ==> next in part
  }

  lemma {:induction false} LinkCountWith(v: View, part: set<nat>, u: nat)
    requires v.chain.ctx.Valid() && u in part
    ensures LinkCount(v, part) == |Pushed(v, v.Sources(u, true))| + LinkCount(v, part - {u})
  {
    var w :| w in part && LinkCount(v, part) == |Pushed(v, v.Sources(w, true))| + LinkCount(v, part - {w});
    if w != u {
      LinkCountWith(v, part - {w}, u);
      LinkCountWith(v, part - {u}, w);
      assert part - {w} - {u} == part - {u} - {w};
    }
  }

  lemma {:induction false} LinkCountMonotone(v: View, part: set<nat>, more: set<nat>)
    requires v.chain.ctx.Valid() && part <= more
    ensures LinkCount(v, part) <= LinkCount(v, more)
  {
    if part != more {
      var u :| u in more && u !in part;
      LinkCountWith(v, more, u);
      LinkCountMonotone(v, part, more - {u});
    }
  }

  /** `best` is at least as new as every live replacement of the thoughts in `part`. */
  ghost predicate Covers(v: View, best: Option<Thought>, part: set<nat>)
    requires v.chain.ctx.Valid()
  {
    forall u, t :: u in part && t in v.Sources(u, true) && !v.Invalidated(t.id) ==> best.Some? && !Newer(t, best.value)
  }

  /** What is left to visit is on the stack. */
  ghost predicate Pending(v: View, visited: set<nat>, frontier: seq<nat>)
    requires v.chain.ctx.Valid()
  {
    forall u, next :: u in visited && next in Pushed(v, v.Sources(u, true)) ==> next in visited || next in frontier
  }

  ghost predicate Among(ids: seq<nat>, part: set<nat>) {
    forall k :: 0 <= k < |ids| ==> ids[k] in part
  }

  lemma {:induction false} WalkComplete(v: View, part: set<nat>, frontier: seq<nat>, visited: set<nat>, depth: nat,
                                        best: Option<Thought>)
    returns (all: set<nat>)
    requires v.chain.ctx.Valid() && Closed(v, part) && LinkCount(v, part) < MAX_LINEAGE_DEPTH
    requires visited <= part && Among(frontier, part)
    requires depth + |frontier| <= 1 + LinkCount(v, visited)
    requires Pending(v, visited, frontier) && Covers(v, best, visited)
    ensures visited <= all && Among(frontier, all) && Closed(v, all)
    ensures Covers(v, Walk(v, frontier, visited, depth, best), all)
    decreases if depth < MAX_LINEAGE_DEPTH then MAX_LINEAGE_DEPTH - depth else 0, |frontier|
  {
    hide Pushed, Improved, LinkCount, Covers, View.Sources;
    if frontier == [] {
      all := visited;
    } else {
      hide Pending, Closed;
      LinkCountMonotone(v, visited, part);
      var current, rest := frontier[|frontier| - 1], frontier[..|frontier| - 1];
      assert frontier == rest + [current];
      if current in visited {
        all := WalkComplete(v, part, rest, visited, depth + 1, best);
      } else {
        var sources := v.Sources(current, true);
        var pushed, improved := Pushed(v, sources), Improved(v, best, sources);
        ExpandCovers(v, visited, current, best);
        LinkCountWith(v, visited + {current}, current);
        assert visited + {current} - {current} == visited;
        all := WalkComplete(v, part, rest + pushed, visited + {current}, depth + 1, improved);
        AmongConcat(rest, pushed, all);
      }
    }
  }

  lemma AmongConcat(a: seq<nat>, b: seq<nat>, part: set<nat>)
    ensures Among(a + b, part) <==> Among(a, part) && Among(b, part)
  {
    if Among(a + b, part) {
      assert forall k :: 0 <= k < |a| ==> (a + b)[k] == a[k];
      assert forall k :: 0 <= k < |b| ==> (a + b)[|a| + k] == b[k];
    }
  }

  lemma ExpandCovers(v: View, visited: set<nat>, current: nat, best: Option<Thought>)
    requires v.chain.ctx.Valid() && Covers(v, best, visited)
    ensures Covers(v, Improved(v, best, v.Sources(current, true)), visited + {current})
  {
    ImprovedIs(v, best, v.Sources(current, true));
    NewerTransitive();
    hide Pushed, Improved, View.Sources, View.Invalidated, Newer, Context.Valid;
    var after := Improved(v, best, v.Sources(current, true));
    forall u, t | u in visited + {current} && t in v.Sources(u, true) && !v.Invalidated(t.id)
      ensures after.Some? && !Newer(t, after.value)
    {
      if u != current {
        assert u in visited;
      }
    }
  }

  lemma NewerTransitive()
    ensures forall a, b, c :: !Newer(a, b) && !Newer(b, c) ==> !Newer(a, c)
  {
  }

  lemma {:induction false} ClosedHoldsReached(v: View, all: set<nat>, path: seq<nat>, id: nat)
    requires v.chain.ctx.Valid() && Closed(v, all) && id in all && Path(v, path, id)
    ensures path[|path| - 1] in all
    decreases |path|
  {
    if |path| > 1 {
      var front := path[..|path| - 1];
      assert forall k :: 0 <= k < |front| ==> front[k] == path[k];
      assert Path(v, front, id);
      ClosedHoldsReached(v, all, front, id);
      var u, next := path[|path| - 2], path[|path| - 1];
      assert Replaced(v, u, next);
      PushedAre(v, v.Sources(u, true));
    }
  }

  /** When the superseded part of the graph has fewer than 64 links into superseded thoughts, the
      walk returns the newest live end, in whatever order it visits: a live end is found when
      there is one, and none is newer. */
  lemma SuccessorIsNewest(v: View, id: nat, part: set<nat>)
    requires v.chain.ctx.Valid()
    requires id in part && Closed(v, part) && LinkCount(v, part) < 64
    ensures var found := LiveSuccessorOf(v, id);
            && (found.Some? ==> LiveEnd(v, id, found.value))
            && forall t :: LiveEnd(v, id, t) ==> found.Some? && !Newer(t, found.value)
  {
    SuccessorIsLiveEnd(v, id);
    hide LiveEnd, Closed, Covers, Pending, Walk, Newer, LinkCount, View.Invalidated, View.Sources;
    var all := WalkComplete(v, part, [id], {}, 0, None);
    assert [id][0] in all;
    forall t | LiveEnd(v, id, t)
      ensures LiveSuccessorOf(v, id).Some? && !Newer(t, LiveSuccessorOf(v, id).value)
    {
      LiveEndCovered(v, id, all, LiveSuccessorOf(v, id), t);
    }
  }

  lemma LiveEndCovered(v: View, id: nat, all: set<nat>, best: Option<Thought>, t: Thought)
    requires v.chain.ctx.Valid() && Closed(v, all) && id in all && Covers(v, best, all)
    requires LiveEnd(v, id, t)
    ensures best.Some? && !Newer(t, best.value)
  {
    hide Closed, Newer, View.Sources, View.Invalidated;
    var u :| Reaches(v, id, u) && t in v.Sources(u, true);
    var path :| Path(v, path, id) && path[|path| - 1] == u;
    ClosedHoldsReached(v, all, path, id);
  }

  // ----- The contester

  /** Of the live thoughts in `sources` one that no other is newer than, the later in the list when two tie. */
  function NewestLive(v: View, sources: seq<Thought>): Option<Thought>
    requires v.chain.ctx.Valid()
  {
    if sources == [] then None
    else
      var before, last := NewestLive(v, sources[..|sources| - 1]), sources[|sources| - 1];
      if !v.Invalidated(last.id) && (before.None? || !Newer(before.value, last)) then Some(last) else before
  }

  function LiveContester(v: View, id: nat): Option<Thought>
    requires v.chain.ctx.Valid()
  {
    NewestLive(v, v.Sources(id, false))
  }

  lemma {:induction false} NewestLiveIs(v: View, sources: seq<Thought>)
    requires v.chain.ctx.Valid()
    ensures var newest := NewestLive(v, sources);
            && (newest.Some? ==> newest.value in sources && !v.Invalidated(newest.value.id))
            && forall t :: t in sources && !v.Invalidated(t.id) ==> newest.Some? && !Newer(t, newest.value)
  {
    hide View.Invalidated, Context.Valid;
    if sources != [] {
      NewestLiveIs(v, sources[..|sources| - 1]);
      assert sources == sources[..|sources| - 1] + [sources[|sources| - 1]];
    }
  }
}
