/** The check on appends that keeps chains of versions short, with the lengths it has found kept for reuse. */
module DepthCheck {
  import opened LineageIndex
  import opened VersionView
  import LiveSuccessor

  /** Chains of versions longer than this all count as this long. */
  const CAP: nat := LiveSuccessor.MAX_LINEAGE_DEPTH + 1

  type Memo = map<nat, nat>

  /** The thoughts of this chain that the relations of a thought take out of force. */
  function Replaced(relations: seq<Relation>): seq<nat> {
    if relations == [] then []
    else
      var last := relations[|relations| - 1];
      Replaced(relations[..|relations| - 1]) + if last.chainKey.None? && IsInvalidating(last.kind) then [last.target]
        else []
  }

  /** Those are the targets of the relations that supersede, correct or invalidate on this chain. */
  lemma {:induction false} ReplacedAre(relations: seq<Relation>, id: nat)
    ensures id in Replaced(relations) <==>
            exists r :: 0 <= r < |relations| && relations[r].chainKey.None? && relations[r].target == id &&
                        (relations[r].kind.Supersedes? || relations[r].kind.Corrects? || relations[r].kind.Invalidates?)
  {
    if relations != [] {
      ReplacedAre(relations[..|relations| - 1], id);
      assert relations == relations[..|relations| - 1] + [relations[|relations| - 1]];
    }
  }

  function Min(a: nat, b: nat): nat {
    if a <= b then a else b
  }

  function Max(a: nat, b: nat): nat {
    if a >= b then a else b
  }

  /** The length found for `id`, looking `level` replacements deep, and the lengths known afterwards. */
  function ChainLen(ctx: Context, id: nat, memo: Memo, level: nat): (nat, Memo)
    requires ctx.Valid()
    decreases if level <= CAP then CAP + 2 - level else 1, 0
  {
    if id in memo then (memo[id], memo)
    else if level > CAP then (CAP, memo)
    else
      match ctx.ById(id)
      case None => (1, memo)
      case Some(thought) =>
        var (below, known) := Longest(ctx, Replaced(thought.relations), memo, level + 1);
        var len := Min(below + 1, CAP);
        (len, known[id := len])
  }

  /** The largest length found for any of `targets`, 0 when there are none. */
  function Longest(ctx: Context, targets: seq<nat>, memo: Memo, level: nat): (nat, Memo)
    requires ctx.Valid()
    decreases if level <= CAP then CAP + 2 - level else 1, 1 + |targets|
  {
    if targets == [] then (0, memo)
    else
      var (before, known) := Longest(ctx, targets[..|targets| - 1], memo, level);
      var (last, more) := ChainLen(ctx, targets[|targets| - 1], known, level);
      (Max(before, last), more)
  }

  /** Whether an append with these relations passes. */
  function Accepts(ctx: Context, relations: seq<Relation>): bool
    requires ctx.Valid()
  {
    Longest(ctx, Replaced(relations), map[], 0).0 + 1 <= LiveSuccessor.MAX_LINEAGE_DEPTH
  }

  // ----- What it measures

  /** `path` starts at `id`, and every thought on it takes the next one out of force. */
  ghost predicate Versions(ctx: Context, path: seq<nat>, id: nat)
    requires ctx.Valid()
  {
    && path != [] && path[0] == id
    && forall k :: 0 <= k < |path| - 1 ==>
       ctx.ById(path[k]).Some? && path[k + 1] in Replaced(ctx.ById(path[k]).value.relations)
  }

  /** No chain of versions from `id` is longer than `n`, counting up to the cap. */
  ghost predicate Covers(ctx: Context, id: nat, n: nat)
    requires ctx.Valid()
  {
    forall path :: Versions(ctx, path, id) ==> Min(|path|, CAP) <= n
  }

  ghost predicate Within(ctx: Context, id: nat, n: int)
    requires ctx.Valid()
  {
    forall path :: Versions(ctx, path, id) ==> |path| <= n
  }

  /** Some chain of versions from `id` is at least `n` long. */
  ghost predicate Reached(ctx: Context, id: nat, n: nat)
    requires ctx.Valid()
  {
    exists path :: Versions(ctx, path, id) && |path| >= n
  }

  ghost predicate AllCover(ctx: Context, memo: Memo)
    requires ctx.Valid()
  {
    forall id :: id in memo ==> Covers(ctx, id, memo[id])
  }

  ghost predicate AllReached(ctx: Context, memo: Memo)
    requires ctx.Valid()
  {
    forall id :: id in memo ==> Reached(ctx, id, memo[id])
  }

  lemma VersionsTail(ctx: Context, path: seq<nat>, id: nat)
    requires ctx.Valid() && Versions(ctx, path, id) && |path| > 1
    ensures ctx.ById(id).Some? && path[1] in Replaced(ctx.ById(id).value.relations) && Versions(ctx, path[1..], path[1])
  {
    hide Context.ById, Context.Valid, Replaced;
    assert forall k :: 0 <= k < |path| - 1 ==> path[1..][k] == path[k + 1];
  }

  lemma VersionsMore(ctx: Context, id: nat, path: seq<nat>, next: nat)
    requires ctx.Valid() && ctx.ById(id).Some? && next in Replaced(ctx.ById(id).value.relations) &&
             Versions(ctx, path, next)
    ensures Versions(ctx, [id] + path, id)
  {
    hide Context.ById, Context.Valid, Replaced;
    var longer := [id] + path;
    assert forall k :: 0 < k < |longer| ==> longer[k] == path[k - 1];
  }

  /** One more version than the longest below. */
  lemma CoversAbove(ctx: Context, id: nat, below: nat)
    requires ctx.Valid() && ctx.ById(id).Some?
    requires forall t :: t in Replaced(ctx.ById(id).value.relations) ==> Covers(ctx, t, below)
    ensures Covers(ctx, id, Min(below + 1, CAP))
  {
    hide Context.ById, Context.Valid, Replaced, Versions;
    forall path | Versions(ctx, path, id)
      ensures Min(|path|, CAP) <= Min(below + 1, CAP)
    {
      if |path| > 1 {
        VersionsTail(ctx, path, id);
        assert Covers(ctx, path[1], below);
      }
    }
  }

  lemma CoversUnknown(ctx: Context, id: nat)
    requires ctx.Valid() && ctx.ById(id).None?
    ensures Covers(ctx, id, 1)
  {
    forall path | Versions(ctx, path, id)
      ensures |path| <= 1
    {
      if |path| > 1 {
        VersionsTail(ctx, path, id);
      }
    }
  }

  lemma CoversMore(ctx: Context, id: nat, n: nat, m: nat)
    requires ctx.Valid() && Covers(ctx, id, n) && n <= m
    ensures Covers(ctx, id, m)
  {
  }

  /** Every length found is large enough. */
  lemma {:induction false} ChainLenCovers(ctx: Context, id: nat, memo: Memo, level: nat)
    requires ctx.Valid() && AllCover(ctx, memo)
    ensures Covers(ctx, id, ChainLen(ctx, id, memo, level).0) && AllCover(ctx, ChainLen(ctx, id, memo, level).1)
    decreases if level <= CAP then CAP + 2 - level else 1, 0
  {
    hide Covers, Context.Valid, Replaced;
    if id !in memo {
      if level > CAP {
        CapCovers(ctx, id);
      } else if ctx.ById(id).None? {
        CoversUnknown(ctx, id);
      } else {
        var targets := Replaced(ctx.ById(id).value.relations);
        LongestCovers(ctx, targets, memo, level + 1);
        CoversAbove(ctx, id, Longest(ctx, targets, memo, level + 1).0);
      }
    }
  }

  lemma CapCovers(ctx: Context, id: nat)
    requires ctx.Valid()
    ensures Covers(ctx, id, CAP)
  {
  }

  lemma {:induction false} LongestCovers(ctx: Context, targets: seq<nat>, memo: Memo, level: nat)
    requires ctx.Valid() && AllCover(ctx, memo)
    ensures AllCover(ctx, Longest(ctx, targets, memo, level).1)
    ensures forall t :: t in targets ==> Covers(ctx, t, Longest(ctx, targets, memo, level).0)
    decreases if level <= CAP then CAP + 2 - level else 1, 1 + |targets|
  {
    hide Covers, AllCover, Context.Valid, ChainLen;
    if targets != [] {
      var front, t := targets[..|targets| - 1], targets[|targets| - 1];
      var (before, known) := Longest(ctx, front, memo, level);
      LongestCovers(ctx, front, memo, level);
      ChainLenCovers(ctx, t, known, level);
      var last := ChainLen(ctx, t, known, level).0;
      assert targets == front + [t];
      forall x | x in targets
        ensures Covers(ctx, x, Max(before, last))
      {
        if x in front {
          CoversMore(ctx, x, before, Max(before, last));
        } else {
          CoversMore(ctx, x, last, Max(before, last));
        }
      }
    }
  }

  lemma WithinBelow(ctx: Context, id: nat, next: nat, n: int)
    requires ctx.Valid() && ctx.ById(id).Some? && next in Replaced(ctx.ById(id).value.relations) && Within(ctx, id, n)
    ensures Within(ctx, next, n - 1)
  {
    hide Context.ById, Context.Valid, Replaced, Versions;
    forall path | Versions(ctx, path, next)
      ensures |path| <= n - 1
    {
      VersionsMore(ctx, id, path, next);
    }
  }

  lemma WithinSome(ctx: Context, id: nat, n: int)
    requires ctx.Valid() && Within(ctx, id, n)
    ensures n >= 1 && Reached(ctx, id, 1)
  {
    assert Versions(ctx, [id], id);
  }

  lemma ReachedAbove(ctx: Context, id: nat, next: nat, n: nat)
    requires ctx.Valid() && ctx.ById(id).Some? && next in Replaced(ctx.ById(id).value.relations) &&
             Reached(ctx, next, n)
    ensures Reached(ctx, id, n + 1)
  {
    var path :| Versions(ctx, path, next) && |path| >= n;
    VersionsMore(ctx, id, path, next);
  }

  lemma ReachedLess(ctx: Context, id: nat, n: nat, m: nat)
    requires ctx.Valid() && Reached(ctx, id, n) && m <= n
    ensures Reached(ctx, id, m)
  {
  }

  /** Where no chain is so long that the search is cut off, every length found is that of some chain. */
  lemma {:induction false} ChainLenReached(ctx: Context, id: nat, memo: Memo, level: nat)
    requires ctx.Valid() && AllReached(ctx, memo) && Within(ctx, id, CAP - level)
    ensures Reached(ctx, id, ChainLen(ctx, id, memo, level).0) && AllReached(ctx, ChainLen(ctx, id, memo, level).1)
    decreases if level <= CAP then CAP + 2 - level else 1, 0
  {
    hide Reached, Within, Context.Valid, Replaced;
    WithinSome(ctx, id, CAP - level);
    if id !in memo && ctx.ById(id).Some? {
      var targets := Replaced(ctx.ById(id).value.relations);
      forall t | t in targets
        ensures Within(ctx, t, CAP - (level + 1))
      {
        WithinBelow(ctx, id, t, CAP - level);
      }
      LongestReached(ctx, targets, memo, level + 1);
      var below := Longest(ctx, targets, memo, level + 1).0;
      if below > 0 {
        var t :| t in targets && Reached(ctx, t, below);
        ReachedAbove(ctx, id, t, below);
        ReachedLess(ctx, id, below + 1, Min(below + 1, CAP));
      }
    }
  }

  lemma {:induction false} LongestReached(ctx: Context, targets: seq<nat>, memo: Memo, level: nat)
    requires ctx.Valid() && AllReached(ctx, memo) && forall t :: t in targets ==> Within(ctx, t, CAP - level)
    ensures AllReached(ctx, Longest(ctx, targets, memo, level).1)
    ensures var n := Longest(ctx, targets, memo, level).0; n > 0 ==> exists t :: t in targets && Reached(ctx, t, n)
    decreases if level <= CAP then CAP + 2 - level else 1, 1 + |targets|
  {
    hide Reached, Within, AllReached, Context.Valid, ChainLen;
    if targets != [] {
      var front, t := targets[..|targets| - 1], targets[|targets| - 1];
      var (before, known) := Longest(ctx, front, memo, level);
      assert targets == front + [t];
      assert t in targets && forall x :: x in front ==> x in targets;
      LongestReached(ctx, front, memo, level);
      ChainLenReached(ctx, t, known, level);
      if before > 0 {
        var x :| x in front && Reached(ctx, x, before);
      }
    }
  }

  /** Every chain of versions from the targets leaves room for one more. */
  ghost predicate AllShort(ctx: Context, targets: seq<nat>)
    requires ctx.Valid()
  {
    forall t :: t in targets ==> Within(ctx, t, 63)
  }

  /** An append passes exactly when no chain of versions it would extend, itself counted, is over the
      limit of 64; cycles among stored relations count as chains of any length. */
  lemma AcceptsIff(ctx: Context, relations: seq<Relation>)
    requires ctx.Valid()
    ensures Accepts(ctx, relations) <==>
            AllShort(ctx, Replaced(relations))
  {
    hide AllShort, Longest, Replaced, Context.Valid;
    if Accepts(ctx, relations) {
      FoundShort(ctx, Replaced(relations));
    }
    if AllShort(ctx, Replaced(relations)) {
      ShortFound(ctx, Replaced(relations));
    }
  }

  lemma FoundShort(ctx: Context, targets: seq<nat>)
    requires ctx.Valid() && Longest(ctx, targets, map[], 0).0 < LiveSuccessor.MAX_LINEAGE_DEPTH
    ensures AllShort(ctx, targets)
  {
    hide Within, Covers, Longest, Context.Valid;
    LongestCovers(ctx, targets, map[], 0);
    CoveredIsWithin(ctx, targets, Longest(ctx, targets, map[], 0).0);
  }

  lemma ShortFound(ctx: Context, targets: seq<nat>)
    requires ctx.Valid() && AllShort(ctx, targets)
    ensures Longest(ctx, targets, map[], 0).0 < LiveSuccessor.MAX_LINEAGE_DEPTH
  {
    hide Within, Reached, Longest, Context.Valid;
    forall t | t in targets
      ensures Within(ctx, t, CAP - 0)
    {
      WithinMore(ctx, t, LiveSuccessor.MAX_LINEAGE_DEPTH - 1, CAP - 0);
    }
    LongestReached(ctx, targets, map[], 0);
    ReachedIsWithin(ctx, targets, Longest(ctx, targets, map[], 0).0);
  }

  /** Relations that take one thought out of force, or none. */
  lemma AcceptsOne(ctx: Context, relations: seq<Relation>, target: nat)
    requires ctx.Valid() && (Replaced(relations) == [] || Replaced(relations) == [target])
    requires Replaced(relations) != [] ==> Within(ctx, target, LiveSuccessor.MAX_LINEAGE_DEPTH - 1)
    ensures Accepts(ctx, relations)
  {
    hide Within, Accepts, Replaced, Context.Valid;
    AcceptsIff(ctx, relations);
  }

  lemma WithinMore(ctx: Context, id: nat, n: int, m: int)
    requires ctx.Valid() && Within(ctx, id, n) && n <= m
    ensures Within(ctx, id, m)
  {
  }

  lemma CoveredIsWithin(ctx: Context, targets: seq<nat>, n: nat)
    requires ctx.Valid() && n < LiveSuccessor.MAX_LINEAGE_DEPTH && forall t :: t in targets ==> Covers(ctx, t, n)
    ensures AllShort(ctx, targets)
  {
    hide Versions, Context.Valid;
  }

  lemma ReachedIsWithin(ctx: Context, targets: seq<nat>, n: nat)
    requires ctx.Valid() && (n > 0 ==> exists t :: t in targets && Reached(ctx, t, n))
    requires AllShort(ctx, targets)
    ensures n < LiveSuccessor.MAX_LINEAGE_DEPTH
  {
    hide Versions, Context.Valid;
  }
}
