/** Near-duplicate clusters of the live thoughts, as the recall audit reports them. */
module Clusters {
  import opened Similarity
  import opened UnionFind

  datatype Note = Note(id: nat, tokens: set<Token>)

  type Edges = set<(nat, nat)>

  /** Pairs this far apart or closer are inside the automatic deduplication window. */
  const DEDUP_WINDOW: nat := 64

  // ----- Connected components

  predicate Adjacent(edges: Edges, x: nat, y: nat) {
    (x, y) in edges || (y, x) in edges
  }

  ghost predicate Path(edges: Edges, path: seq<nat>) {
    && path != []
    && forall k :: 0 <= k < |path| - 1 ==> Adjacent(edges, path[k], path[k + 1])
  }

  ghost predicate Joins(edges: Edges, path: seq<nat>, x: nat, y: nat) {
    Path(edges, path) && path[0] == x && path[|path| - 1] == y
  }

  /** A chain of edges leads from `x` to `y`. */
  ghost predicate Connected(edges: Edges, x: nat, y: nat) {
    exists path :: Joins(edges, path, x, y)
  }

  lemma ConnectedRefl(edges: Edges, x: nat)
    ensures Connected(edges, x, x)
  {
    assert Joins(edges, [x], x, x);
  }

  lemma ConnectedEdge(edges: Edges, x: nat, y: nat)
    requires Adjacent(edges, x, y)
    ensures Connected(edges, x, y)
  {
    assert Joins(edges, [x, y], x, y);
  }

  lemma ConnectedTrans(edges: Edges, x: nat, y: nat, z: nat)
    requires Connected(edges, x, y) && Connected(edges, y, z)
    ensures Connected(edges, x, z)
  {
    var p :| Joins(edges, p, x, y);
    var q :| Joins(edges, q, y, z);
    assert Joins(edges, p + q[1..], x, z);
  }

  lemma {:induction false} ReversePath(edges: Edges, path: seq<nat>, x: nat, y: nat)
    requires Joins(edges, path, x, y)
    ensures Connected(edges, y, x)
    decreases |path|
  {
    if |path| == 1 {
      ConnectedRefl(edges, x);
    } else {
      assert Joins(edges, path[1..], path[1], y);
      ReversePath(edges, path[1..], path[1], y);
      ConnectedEdge(edges, path[1], x);
      ConnectedTrans(edges, y, path[1], x);
    }
  }

  lemma ConnectedSym(edges: Edges, x: nat, y: nat)
    requires Connected(edges, x, y)
    ensures Connected(edges, y, x)
  {
    var path :| Joins(edges, path, x, y);
    ReversePath(edges, path, x, y);
  }

  lemma ConnectedMore(edges: Edges, more: Edges, x: nat, y: nat)
    requires edges <= more && Connected(edges, x, y)
    ensures Connected(more, x, y)
  {
    var path :| Joins(edges, path, x, y);
    assert Joins(more, path, x, y);
  }

  /** Labels that agree across every edge agree across every path. */
  lemma {:induction false} LabelsFollowPath(edges: Edges, labels: seq<nat>, path: seq<nat>, x: nat, y: nat)
    requires Within(edges, |labels|) && x < |labels|
    requires forall e :: e in edges ==> labels[e.0] == labels[e.1]
    requires Joins(edges, path, x, y)
    ensures y < |labels| && labels[x] == labels[y]
    decreases |path|
  {
    if |path| > 1 {
      assert Adjacent(edges, path[0], path[1]);
      assert Joins(edges, path[1..], path[1], y);
      LabelsFollowPath(edges, labels, path[1..], path[1], y);
    }
  }

  predicate Within(edges: Edges, bound: nat) {
    forall e :: e in edges ==> e.0 < bound && e.1 < bound
  }

  // ----- The forest describes the components of the edges joined so far

  ghost predicate Describes(parent: seq<nat>, rank: seq<nat>, edges: Edges) {
    && Forest(parent, rank) && Within(edges, |parent|)
    && (forall e :: e in edges ==> Root(parent, rank, e.0) == Root(parent, rank, e.1))
    && forall x :: 0 <= x < |parent| ==> Connected(edges, x, Root(parent, rank, x))
  }

  /** In such a forest, one tree is one connected component. */
  lemma RootsAreComponents(parent: seq<nat>, rank: seq<nat>, edges: Edges, x: nat, y: nat)
    requires Describes(parent, rank, edges) && x < |parent| && y < |parent|
    ensures Root(parent, rank, x) == Root(parent, rank, y) <==> Connected(edges, x, y)
  {
    if Root(parent, rank, x) == Root(parent, rank, y) {
      ConnectedSym(edges, y, Root(parent, rank, y));
      ConnectedTrans(edges, x, Root(parent, rank, x), y);
    }
    if Connected(edges, x, y) {
      var path :| Joins(edges, path, x, y);
      LabelsFollowPath(edges, Roots(parent, rank), path, x, y);
    }
  }

  lemma DescribesNothing(parent: seq<nat>, rank: seq<nat>)
    requires |rank| == |parent| && forall x :: 0 <= x < |parent| ==> parent[x] == x
    ensures Describes(parent, rank, {})
  {
    forall x | 0 <= x < |parent|
      ensures Connected({}, x, Root(parent, rank, x))
    {
      ConnectedRefl({}, x);
    }
  }

  /** Compression keeps the description: it changes no root. */
  lemma DescribesKept(before: seq<nat>, after: seq<nat>, rank: seq<nat>, edges: Edges)
    requires Describes(before, rank, edges)
    requires Forest(after, rank) && Roots(after, rank) == Roots(before, rank)
    ensures Describes(after, rank, edges)
  {
    assert forall x :: 0 <= x < |before| ==> Roots(after, rank)[x] == Roots(before, rank)[x];
  }

  lemma JoinedRoots(edges: Edges, a: nat, b: nat, ra: nat, rb: nat)
    requires Connected(edges, a, ra) && Connected(edges, b, rb)
    ensures Connected(edges + {(a, b)}, ra, rb)
  {
    var more := edges + {(a, b)};
    ConnectedEdge(more, a, b);
    ConnectedMore(edges, more, a, ra);
    ConnectedMore(edges, more, b, rb);
    ConnectedSym(more, a, ra);
    ConnectedTrans(more, ra, a, b);
    ConnectedTrans(more, ra, b, rb);
  }

  /** Joining the roots of an edge's ends adds exactly that edge. */
  lemma DescribesUnion(parent: seq<nat>, rank: seq<nat>, edges: Edges, a: nat, b: nat)
    requires Describes(parent, rank, edges) && a < |parent| && b < |parent|
    ensures var ra, rb := Root(parent, rank, a), Root(parent, rank, b);
            Describes(parent[ra := rb], Raised(parent, rank, ra, rb), edges + {(a, b)})
  {
    hide Connected, Forest, Raised;
    var ra, rb := Root(parent, rank, a), Root(parent, rank, b);
    var after, raised, more := parent[ra := rb], Raised(parent, rank, ra, rb), edges + {(a, b)};
    UnionMergesRoot(parent, rank, ra, rb, a);
    JoinedRoots(edges, a, b, ra, rb);
    forall y | 0 <= y < |parent|
      ensures Root(after, raised, y) == if Root(parent, rank, y) == ra then rb else Root(parent, rank, y)
    {
      UnionMergesRoot(parent, rank, ra, rb, y);
    }
    forall y | 0 <= y < |parent|
      ensures Connected(more, y, Root(after, raised, y))
    {
      ConnectedMore(edges, more, y, Root(parent, rank, y));
      if Root(parent, rank, y) == ra {
        ConnectedTrans(more, y, ra, rb);
      }
    }
  }

  // ----- The report

  predicate NearPair(sets: seq<set<Token>>, a: nat, b: nat)
    requires a < |sets| && b < |sets|
  {
    Jaccard(sets[a], sets[b]) >= 0.85
  }

  /** Sizes too far apart, or nothing to compare. */
  predicate Skipped(la: nat, lb: nat) {
    var small, large := if la < lb then la else lb, if la < lb then lb else la;
    small * 100 < large * 85 || la == 0
  }

  /** The shortcut skips no near-duplicate. */
  lemma SkipIsSafe(sets: seq<set<Token>>, a: nat, b: nat)
    requires a < |sets| && b < |sets| && NearPair(sets, a, b)
    ensures !Skipped(|sets[a]|, |sets[b]|)
  {
    NearSharesFraction(sets[a], sets[b], 0.85);
    UnionSize(sets[a], sets[b]);
  }

  /** Near-duplicate pairs met before the loop reaches `(a, b)`. */
  ghost function NearBefore(sets: seq<set<Token>>, a: nat, b: nat): (edges: Edges)
    ensures Within(edges, |sets|)
  {
    set i: nat, j: nat | i < |sets| && j < |sets| && i < j && (i < a || (i == a && j < b)) &&
      NearPair(sets, i, j) :: (i, j)
  }

  /** The near-duplicate graph over the live thoughts. */
  ghost function NearGraph(sets: seq<set<Token>>): (edges: Edges)
    ensures Within(edges, |sets|)
  {
    set i: nat, j: nat | i < |sets| && j < |sets| && i < j && Jaccard(sets[i], sets[j]) >= 0.85 :: (i, j)
  }

  /** The pairs whose thoughts lie within the deduplication window of each other. */
  ghost function ClosePairs(edges: Edges, live: seq<nat>): Edges
    requires Within(edges, |live|)
  {
    set e | e in edges && live[e.1] <= live[e.0] + 64
  }

  /** Positions of the thoughts nothing has invalidated. */
  function LiveIndices(notes: seq<Note>, invalid: set<nat>): (live: seq<nat>)
    ensures forall k :: 0 <= k < |live| ==> live[k] < |notes|
  {
    if notes == [] then []
    else
      var last := |notes| - 1;
      LiveIndices(notes[..last], invalid) + if notes[last].id in invalid then [] else [last]
  }

  /** Exactly the thoughts nothing has invalidated are live, oldest first. */
  lemma {:induction false} LiveIndicesAre(notes: seq<Note>, invalid: set<nat>)
    ensures var live := LiveIndices(notes, invalid);
            && (forall x: nat :: x in live <==> x < |notes| && notes[x].id !in invalid)
            && forall j, k :: 0 <= j < k < |live| ==> live[j] < live[k]
  {
    if notes != [] {
      var before := notes[..|notes| - 1];
      LiveIndicesAre(before, invalid);
      assert forall x: nat :: x < |before| ==> notes[x] == before[x];
    }
  }

  /** The live thoughts of one tree, oldest first. */
  function Members(live: seq<nat>, roots: seq<nat>, root: nat, n: nat): seq<nat>
    requires n <= |live| == |roots|
  {
    if n == 0 then []
    else Members(live, roots, root, n - 1) + if roots[n - 1] == root then [live[n - 1]] else []
  }

  method JoinNearPairs(sets: seq<set<Token>>, live: seq<nat>, parent: array<nat>)
    returns (closePairs: nat, farPairs: nat, ghost rank: seq<nat>)
    requires parent.Length == |live| == |sets| && forall x :: 0 <= x < parent.Length ==> parent[x] == x
    modifies parent
    ensures Describes(parent[..], rank, NearGraph(sets))
    ensures closePairs == |ClosePairs(NearGraph(sets), live)|
    ensures closePairs + farPairs == |NearGraph(sets)|
  {
    hide Describes, NearBefore, NearGraph, ClosePairs, Jaccard, Within;
    var n := |live|;
    closePairs, farPairs := 0, 0;
    rank := seq(n, _ => 0);
    DescribesNothing(parent[..], rank);
    NoPairs(sets, live);
    for a := 0 to n
      invariant Describes(parent[..], rank, NearBefore(sets, a, a + 1))
      invariant closePairs == |ClosePairs(NearBefore(sets, a, a + 1), live)|
      invariant closePairs + farPairs == |NearBefore(sets, a, a + 1)|
    {
      for b := a + 1 to n
        invariant Describes(parent[..], rank, NearBefore(sets, a, b))
        invariant closePairs == |ClosePairs(NearBefore(sets, a, b), live)|
        invariant closePairs + farPairs == |NearBefore(sets, a, b)|
      {
        NextPair(sets, live, a, b);
        if Skipped(|sets[a]|, |sets[b]|) {
          if NearPair(sets, a, b) {
            SkipIsSafe(sets, a, b);
          }
          continue;
        }
        if Jaccard(sets[a], sets[b]) >= 0.85 {
          rank := Join(parent, rank, a, b, NearBefore(sets, a, b));
          if live[b] - live[a] <= DEDUP_WINDOW {
            closePairs := closePairs + 1;
          } else {
            farPairs := farPairs + 1;
          }
        }
      }
      NextRow(sets, a);
    }
    AllPairs(sets);
  }

  lemma NoPairs(sets: seq<set<Token>>, live: seq<nat>)
    requires |sets| == |live|
    ensures NearBefore(sets, 0, 1) == {} && ClosePairs(NearBefore(sets, 0, 1), live) == {}
  {
  }

  lemma AllPairs(sets: seq<set<Token>>)
    ensures NearBefore(sets, |sets|, |sets| + 1) == NearGraph(sets)
  {
  }

  method Join(parent: array<nat>, ghost rank: seq<nat>, a: nat, b: nat, ghost edges: Edges)
    returns (ghost raised: seq<nat>)
    requires Describes(parent[..], rank, edges) && a < parent.Length && b < parent.Length
    modifies parent
    ensures Describes(parent[..], raised, edges + {(a, b)})
  {
    hide Describes;
    assert Forest(parent[..], rank) by { DescribesForest(parent[..], rank, edges); }
    var ra := Find(parent, rank, a);
    DescribesKept(old(parent[..]), parent[..], rank, edges);
    ghost var between := parent[..];
    assert Roots(between, rank)[b] == old(Roots(parent[..], rank))[b];
    var rb := Find(parent, rank, b);
    DescribesKept(between, parent[..], rank, edges);
    assert Roots(parent[..], rank)[a] == ra && Roots(parent[..], rank)[b] == rb;
    DescribesUnion(parent[..], rank, edges, a, b);
    raised := Raised(parent[..], rank, ra, rb);
    ghost var after := parent[..][ra := rb];
    parent[ra] := rb;
    assert parent[..] == after;
  }

  lemma DescribesForest(parent: seq<nat>, rank: seq<nat>, edges: Edges)
    requires Describes(parent, rank, edges)
    ensures Forest(parent, rank)
  {
  }

  lemma NextEdge(sets: seq<set<Token>>, a: nat, b: nat)
    requires a < b < |sets|
    ensures NearBefore(sets, a, b + 1) == if NearPair(sets, a, b) then NearBefore(sets, a, b) + {(a, b)}
            else NearBefore(sets, a, b)
    ensures (a, b) !in NearBefore(sets, a, b)
  {
    hide NearPair;
  }

  lemma NextPair(sets: seq<set<Token>>, live: seq<nat>, a: nat, b: nat)
    requires a < b < |sets| == |live|
    ensures var now, next := NearBefore(sets, a, b), NearBefore(sets, a, b + 1);
            if NearPair(sets, a, b) then
              && next == now + {(a, b)} && |next| == |now| + 1
              && |ClosePairs(next, live)| ==
                 |ClosePairs(now, live)| + if live[b] - live[a] <= DEDUP_WINDOW then 1 else 0
            else next == now
  {
    var now, next := NearBefore(sets, a, b), NearBefore(sets, a, b + 1);
    NextEdge(sets, a, b);
    hide NearBefore, NearPair;
    if NearPair(sets, a, b) {
      if live[b] - live[a] <= DEDUP_WINDOW {
        assert ClosePairs(next, live) == ClosePairs(now, live) + {(a, b)};
      } else {
        assert ClosePairs(next, live) == ClosePairs(now, live);
      }
    }
  }

  lemma NextRow(sets: seq<set<Token>>, a: nat)
    requires a < |sets|
    ensures NearBefore(sets, a, |sets|) == NearBefore(sets, a + 1, a + 2)
  {
  }

  ghost function LiveTokens(notes: seq<Note>, live: seq<nat>): (sets: seq<set<Token>>)
    requires forall k :: 0 <= k < |live| ==> live[k] < |notes|
    ensures |sets| == |live|
  {
    seq(|live|, k requires 0 <= k < |live| => notes[live[k]].tokens)
  }

  /** The live thoughts among the first `n` that edges connect to `root`, oldest first. */
  ghost function Component(live: seq<nat>, edges: Edges, root: nat, n: nat): seq<nat>
    requires n <= |live|
  {
    if n == 0 then []
    else Component(live, edges, root, n - 1) + if Connected(edges, n - 1, root) then [live[n - 1]] else []
  }

  /** `labels` tells the connected components of `edges` apart, each named by one of its elements. */
  ghost predicate LabelsComponents(labels: seq<nat>, edges: Edges) {
    && (forall x :: 0 <= x < |labels| ==> labels[x] < |labels| && labels[labels[x]] == labels[x])
    && forall x, y :: 0 <= x < |labels| && 0 <= y < |labels| ==> (labels[x] == labels[y] <==> Connected(edges, x, y))
  }

  lemma {:induction false} MembersAreComponent(live: seq<nat>, labels: seq<nat>, edges: Edges, root: nat, n: nat)
    requires n <= |live| == |labels| && LabelsComponents(labels, edges) && root in labels
    ensures root < |labels| && Members(live, labels, root, n) == Component(live, edges, root, n)
  {
    hide Connected;
    var x :| 0 <= x < |labels| && labels[x] == root;
    if n > 0 {
      MembersAreComponent(live, labels, edges, root, n - 1);
      assert labels[n - 1] == labels[root] <==> Connected(edges, n - 1, root);
    }
  }

  ghost predicate InCluster(clusters: map<nat, seq<nat>>, edges: Edges, x: nat) {
    exists root :: root in clusters && Connected(edges, x, root)
  }

  /** One cluster per connected component: every live thought is in one, and no two are connected. */
  ghost predicate ClustersAre(clusters: map<nat, seq<nat>>, live: seq<nat>, edges: Edges) {
    && (forall x :: 0 <= x < |live| ==> InCluster(clusters, edges, x))
    && (forall r, s :: r in clusters && s in clusters && r != s ==> !Connected(edges, r, s))
    && forall root :: root in clusters ==> root < |live| && clusters[root] == Component(live, edges, root, |live|)
  }

  lemma ClustersFromLabels(clusters: map<nat, seq<nat>>, live: seq<nat>, labels: seq<nat>, edges: Edges)
    requires |labels| == |live| && LabelsComponents(labels, edges) && clusters.Keys == Elems(labels)
    requires forall root :: root in clusters ==> clusters[root] == Members(live, labels, root, |live|)
    ensures ClustersAre(clusters, live, edges)
  {
    hide Connected, Members, Component;
    forall root | root in clusters
      ensures root < |live| && clusters[root] == Component(live, edges, root, |live|)
    {
      MembersAreComponent(live, labels, edges, root, |live|);
    }
    forall x | 0 <= x < |live|
      ensures InCluster(clusters, edges, x)
    {
      assert labels[x] in clusters && Connected(edges, x, labels[x]);
    }
  }

  /** Clusters of near-duplicates among the live thoughts, by the element that names them. */
  method DuplicateReport(notes: seq<Note>, invalid: set<nat>)
    returns (clusters: map<nat, seq<nat>>, closePairs: nat, farPairs: nat)
    ensures var live := LiveIndices(notes, invalid);
            var graph := NearGraph(LiveTokens(notes, live));
            && ClustersAre(clusters, live, graph)
            && closePairs == |ClosePairs(graph, live)|
            && closePairs + farPairs == |graph|
  {
    var live := LiveIndices(notes, invalid);
    var n := |live|;
    var sets := seq(n, k requires 0 <= k < n => notes[live[k]].tokens);
    var parent := new nat[n](x => x);
    ghost var rank;
    closePairs, farPairs, rank := JoinNearPairs(sets, live, parent);
    ghost var roots := Roots(parent[..], rank);
    forall x, y | 0 <= x < n && 0 <= y < n
      ensures roots[x] == roots[y] <==> Connected(NearGraph(sets), x, y)
    {
      RootsAreComponents(parent[..], rank, NearGraph(sets), x, y);
    }
    clusters := Gather(parent, rank, live);
    ClustersFromLabels(clusters, live, roots, NearGraph(sets));
  }

  method Gather(parent: array<nat>, ghost rank: seq<nat>, live: seq<nat>) returns (clusters: map<nat, seq<nat>>)
    requires Forest(parent[..], rank) && |live| == parent.Length
    modifies parent
    ensures clusters.Keys == Elems(old(Roots(parent[..], rank)))
    ensures forall root :: root in clusters ==>
              clusters[root] == Members(live, old(Roots(parent[..], rank)), root, |live|)
  {
    hide Forest, Gathered;
    ghost var roots := Roots(parent[..], rank);
    clusters := map[];
    assert Gathered(clusters, live, roots, 0) by { NothingGathered(live, roots); }
    for a := 0 to |live|
      invariant Forest(parent[..], rank) && Roots(parent[..], rank) == roots
      invariant Gathered(clusters, live, roots, a)
    {
      assert roots[a] == Root(parent[..], rank, a);
      GatherStep(clusters, live, roots, a);
      var root := Find(parent, rank, a);
      var members := if root in clusters then clusters[root] else [];
      clusters := clusters[root := members + [live[a]]];
    }
    assert roots[..|live|] == roots;
    AllGathered(clusters, live, roots);
  }

  /** `clusters` groups the first `n` live thoughts by root. */
  ghost predicate Gathered(clusters: map<nat, seq<nat>>, live: seq<nat>, roots: seq<nat>, n: nat)
    requires n <= |live| == |roots|
  {
    && clusters.Keys == Elems(roots[..n])
    && (forall root :: root in clusters ==> clusters[root] == Members(live, roots, root, n))
    && forall root: nat :: root !in clusters ==> Members(live, roots, root, n) == []
  }

  lemma NothingGathered(live: seq<nat>, roots: seq<nat>)
    requires |live| == |roots|
    ensures Gathered(map[], live, roots, 0)
  {
  }

  lemma GatherStep(clusters: map<nat, seq<nat>>, live: seq<nat>, roots: seq<nat>, n: nat)
    requires n < |live| == |roots| && Gathered(clusters, live, roots, n)
    ensures var root := roots[n];
            var members := if root in clusters then clusters[root] else [];
            Gathered(clusters[root := members + [live[n]]], live, roots, n + 1)
  {
    assert roots[..n + 1] == roots[..n] + [roots[n]];
  }

  lemma AllGathered(clusters: map<nat, seq<nat>>, live: seq<nat>, roots: seq<nat>)
    requires |live| == |roots| && Gathered(clusters, live, roots, |live|)
    ensures clusters.Keys == Elems(roots)
    ensures forall root :: root in clusters ==> clusters[root] == Members(live, roots, root, |live|)
  {
    assert roots[..|live|] == roots;
  }
}
