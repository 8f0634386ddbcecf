/** Union-find over a parent array, with path compression. */
module UnionFind {

  /** Every parent link stays in range and goes down in rank, so the links form a forest. */
  ghost predicate Forest(parent: seq<nat>, rank: seq<nat>) {
    && |rank| == |parent|
    && forall x :: 0 <= x < |parent| ==>
         parent[x] < |parent| && (parent[x] != x ==> rank[parent[x]] < rank[x])
  }

  ghost function Root(parent: seq<nat>, rank: seq<nat>, x: nat): (root: nat)
    requires Forest(parent, rank) && x < |parent|
    ensures root < |parent| && parent[root] == root
    ensures rank[root] <= rank[x] && (root != x ==> rank[root] < rank[x])
    decreases rank[x]
  {
    if parent[x] == x then x else Root(parent, rank, parent[x])
  }

  /** The tree of every element. */
  ghost function Roots(parent: seq<nat>, rank: seq<nat>): (roots: seq<nat>)
    requires Forest(parent, rank)
    ensures |roots| == |parent| && forall x :: 0 <= x < |parent| ==> roots[x] == Root(parent, rank, x)
  {
    seq(|parent|, x requires 0 <= x < |parent| => Root(parent, rank, x))
  }

  /** Pointing an element straight at its root leaves every element in its tree. */
  lemma {:induction false} CompressKeepsRoot(parent: seq<nat>, rank: seq<nat>, cur: nat, y: nat)
    requires Forest(parent, rank) && cur < |parent| && y < |parent|
    requires parent[cur] != cur
    ensures var after := parent[cur := Root(parent, rank, cur)];
            Forest(after, rank) && Root(after, rank, y) == Root(parent, rank, y)
    decreases rank[y]
  {
    var root := Root(parent, rank, cur);
    var after := parent[cur := root];
    if y == cur {
      assert after[root] == root;
    } else if parent[y] != y {
      CompressKeepsRoot(parent, rank, cur, parent[y]);
    }
  }

  lemma CompressKeepsRoots(parent: seq<nat>, rank: seq<nat>, cur: nat)
    requires Forest(parent, rank) && cur < |parent| && parent[cur] != cur
    ensures var after := parent[cur := Root(parent, rank, cur)];
            Forest(after, rank) && Roots(after, rank) == Roots(parent, rank)
  {
    CompressKeepsRoot(parent, rank, cur, cur);
    forall y | 0 <= y < |parent|
      ensures Root(parent[cur := Root(parent, rank, cur)], rank, y) == Root(parent, rank, y)
    {
      CompressKeepsRoot(parent, rank, cur, y);
    }
  }

  /** The root of `x`; the elements on the way are pointed straight at it. */
  method Find(parent: array<nat>, ghost rank: seq<nat>, x: nat) returns (root: nat)
    requires Forest(parent[..], rank) && x < parent.Length
    modifies parent
    ensures Forest(parent[..], rank) && Roots(parent[..], rank) == old(Roots(parent[..], rank))
    ensures root == old(Root(parent[..], rank, x))
  {
    root := x;
    while parent[root] != root
      invariant root < parent.Length
      invariant Root(parent[..], rank, root) == Root(parent[..], rank, x)
      decreases rank[root]
    {
      root := parent[root];
    }
    var cur: nat := x;
    while parent[cur] != root
      invariant cur < parent.Length && Forest(parent[..], rank)
      invariant Roots(parent[..], rank) == old(Roots(parent[..], rank))
      invariant Roots(parent[..], rank)[cur] == root
      decreases rank[cur]
    {
      var next := parent[cur];
      assert Root(parent[..], rank, cur) == root;
      CompressKeepsRoots(parent[..], rank, cur);
      ghost var after := parent[..][cur := root];
      parent[cur] := root;
      assert parent[..] == after;
      cur := next;
    }
  }

  /** Ranks after the tree of `ra` is hung under `rb`. */
  ghost function Raised(parent: seq<nat>, rank: seq<nat>, ra: nat, rb: nat): (raised: seq<nat>)
    requires Forest(parent, rank) && ra < |parent| && rb < |parent|
    ensures |raised| == |rank|
  {
    seq(|rank|, y requires 0 <= y < |rank| =>
      if ra != rb && Root(parent, rank, y) == ra then rank[y] + rank[rb] + 1 else rank[y])
  }

  /** Hanging one root under another merges exactly their two trees. */
  lemma {:induction false} UnionMergesRoot(parent: seq<nat>, rank: seq<nat>, ra: nat, rb: nat, y: nat)
    requires Forest(parent, rank) && ra < |parent| && rb < |parent| && y < |parent|
    requires parent[ra] == ra && parent[rb] == rb
    ensures var after, raised := parent[ra := rb], Raised(parent, rank, ra, rb);
            && Forest(after, raised)
            && Root(after, raised, y) == if Root(parent, rank, y) == ra then rb else Root(parent, rank, y)
    decreases rank[y]
  {
    var after, raised := parent[ra := rb], Raised(parent, rank, ra, rb);
    assert Forest(after, raised);
    if y == ra {
      assert after[rb] == rb;
    } else if parent[y] != y {
      UnionMergesRoot(parent, rank, ra, rb, parent[y]);
    }
  }
}
