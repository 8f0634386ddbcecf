/** With which score every hit comes out of the redirection, and exactly which thoughts it names. */
module RedirectScores {
  import opened Wrappers
  import opened LineageIndex
  import opened VersionView
  import opened LiveSuccessor
  import opened Redirect
  import opened RedirectSafety
  import opened ContestedHits

  /** The thought that comes in for a hit on `id`, beside it or in its place. */
  function ComesFor(v: View, allowed: Allowed, id: nat): Option<Thought>
    requires v.chain.ctx.Valid()
  {
    var found := if v.Invalidated(id) then LiveSuccessorOf(v, id) else LiveContester(v, id);
    if found.Some? && allowed(found.value) then found else None
  }

  /** The `k`-th raw hit takes a turn, and `id` comes in for it. */
  predicate BringsFor(v: View, raw: seq<Hit>, allowed: Allowed, k: nat, id: nat)
    requires v.chain.ctx.Valid() && k < |raw|
  {
    && raw[k].thought.id !in BroughtBefore(v, raw, allowed, k)
    && ComesFor(v, allowed, raw[k].thought.id).Some? && ComesFor(v, allowed, raw[k].thought.id).value.id == id
  }

  /** The last raw hit on `id` is the one at `i`. */
  predicate LastFor(raw: seq<Hit>, i: nat, id: nat) {
    i < |raw| && raw[i].thought.id == id && forall j :: i < j < |raw| ==> raw[j].thought.id != id
  }

  predicate Larger(total: real, a: real, b: real) {
    total >= a && total >= b && (total == a || total == b)
  }

  /** The `k`-th hit brings `id` in with this score: its own when it is a hit on `id`; otherwise the larger of
      what `id` had itself (the hit's, when it had none) and the hit's, raised a little when the hit is live. */
  ghost predicate ScoredBy(v: View, raw: seq<Hit>, k: nat, id: nat, total: real)
    requires v.chain.ctx.Valid() && k < |raw|
  {
    if raw[k].thought.id == id then total == raw[k].total
    else
      var raised := if v.Invalidated(raw[k].thought.id) then raw[k].total else raw[k].total + 0.001;
      && (forall i: nat :: LastFor(raw, i, id) ==> Larger(total, raw[i].total, raised))
      && (!Has(raw, id) ==> Larger(total, raw[k].total, raised))
  }

  lemma {:induction false} LastHitIs(raw: seq<Hit>, id: nat)
    ensures if Has(raw, id) then exists i: nat :: LastFor(raw, i, id) && LastHit(raw, id) == Some(raw[i])
            else LastHit(raw, id) == None
  {
    if raw != [] {
      var before, last := raw[..|raw| - 1], raw[|raw| - 1];
      LastHitIs(before, id);
      HasMore(before, last, id);
      assert raw == before + [last];
      if last.thought.id == id {
        assert LastFor(raw, |before|, id);
      } else if Has(before, id) {
        var i: nat :| LastFor(before, i, id) && LastHit(before, id) == Some(before[i]);
        assert LastFor(raw, i, id);
      }
    }
  }

  lemma OneIsLast(raw: seq<Hit>, i: nat, j: nat, id: nat)
    requires LastFor(raw, i, id) && LastFor(raw, j, id)
    ensures i == j
  {
  }

  // ----- One hit

  /** What placing does to the hit on `thought`. */
  lemma PlaceAt(raw: seq<Hit>, out: seq<Hit>, template: Hit, thought: Thought, bump: real, x: nat)
    ensures var after := Place(raw, out, template, thought, bump);
            var slot := Slot(out, thought.id);
            && Slot(after, thought.id) == slot < |after|
            && (slot < |out| ==>
                  && after[slot].total == out[slot].total
                  && (x in after[slot].successorOf <==> x in out[slot].successorOf || x == template.thought.id))
            && (slot == |out| ==>
                  && after[slot] == StandIn(raw, template, thought, bump)
                  && (x in after[slot].successorOf <==> x == template.thought.id))
  {
    PlaceGrows(raw, out, template, thought, bump);
    PlaceHas(raw, out, template, thought, bump, thought.id);
    SlotStays(out, Place(raw, out, template, thought, bump), thought.id);
    var slot, after := Slot(out, thought.id), Place(raw, out, template, thought, bump);
    hide Slot, StandIn;
    if slot == |out| {
      assert after == out + [StandIn(raw, template, thought, bump)];
    }
  }

  lemma StandInScored(v: View, raw: seq<Hit>, k: nat, thought: Thought, bump: real)
    requires v.chain.ctx.Valid() && k < |raw| && raw[k].thought.id != thought.id
    requires bump == if v.Invalidated(raw[k].thought.id) then 0.0 else 0.001
    ensures ScoredBy(v, raw, k, thought.id, StandIn(raw, raw[k], thought, bump).total)
  {
    hide View.Invalidated, LastHit, Context.Valid;
    LastHitIs(raw, thought.id);
    forall i: nat | LastFor(raw, i, thought.id)
      ensures LastHit(raw, thought.id) == Some(raw[i])
    {
      var j: nat :| LastFor(raw, j, thought.id) && LastHit(raw, thought.id) == Some(raw[j]);
      OneIsLast(raw, i, j, thought.id);
    }
  }

  // ----- One turn

  /** The hit on `id` names `x` because the turn of the `k`-th raw hit put it there. */
  ghost predicate NamedAt(v: View, raw: seq<Hit>, allowed: Allowed, k: nat, id: nat, x: nat)
    requires v.chain.ctx.Valid() && k < |raw|
  {
    BringsFor(v, raw, allowed, k, id) && raw[k].thought.id == x
  }

  lemma ReplacementDiffers(v: View, allowed: Allowed, id: nat)
    requires v.chain.Valid()
    ensures ComesFor(v, allowed, id).Some? ==> ComesFor(v, allowed, id).value.id != id
  {
    hide LiveSuccessorOf, LiveContester, View.Invalidated;
    ReplacementIsLive(v, allowed, id);
    ContesterDiffers(v, id);
  }

  /** A turn that passes over, replaces or keeps its hit. */
  lemma StepCases(v: View, raw: seq<Hit>, allowed: Allowed, k: nat)
    requires v.chain.ctx.Valid() && k < |raw|
    ensures var before, after, hit := After(v, raw, allowed, k), After(v, raw, allowed, k + 1), raw[k];
            var comes := ComesFor(v, allowed, hit.thought.id);
            var bump := if v.Invalidated(hit.thought.id) then 0.0 else 0.001;
            var placed := if comes.None? then before else Place(raw, before, hit, comes.value, bump);
            after == if Has(before, hit.thought.id) then before
                     else if v.Invalidated(hit.thought.id) then placed else placed + [hit]
  {
    hide Place, View.Invalidated, LiveSuccessorOf, LiveContester;
  }

  /** What the turn of the `k`-th raw hit does to a thought that is in the output by then. */
  lemma TurnKeeps(v: View, raw: seq<Hit>, allowed: Allowed, k: nat, id: nat, x: nat)
    requires v.chain.Valid() && k < |raw| && Has(After(v, raw, allowed, k), id)
    ensures var before, after := After(v, raw, allowed, k), After(v, raw, allowed, k + 1);
            var slot := Slot(before, id);
            && Slot(after, id) == slot < |before| <= |after|
            && after[slot].total == before[slot].total
            && (x in after[slot].successorOf <==>
               x in before[slot].successorOf || NamedAt(v, raw, allowed, k, id, x))
  {
    hide Place, View.Invalidated, After, ComesFor, Slot, StandIn, BroughtBefore, Grows;
    var before, after, hit := After(v, raw, allowed, k), After(v, raw, allowed, k + 1), raw[k];
    var comes := ComesFor(v, allowed, hit.thought.id);
    BroughtIsHad(v, raw, allowed, k, hit.thought.id);
    AfterGrows(v, raw, allowed, k, k + 1);
    SlotStays(before, after, id);
    StepCases(v, raw, allowed, k);
    if comes.Some? {
      var bump := if v.Invalidated(hit.thought.id) then 0.0 else 0.001;
      PlaceAt(raw, before, hit, comes.value, bump, x);
      PlaceElsewhere(raw, before, hit, comes.value, bump, id);
    }
  }

  /** Placing a thought leaves the hits on others alone. */
  lemma PlaceElsewhere(raw: seq<Hit>, out: seq<Hit>, template: Hit, thought: Thought, bump: real, id: nat)
    requires Has(out, id)
    ensures var after, slot := Place(raw, out, template, thought, bump), Slot(out, id);
            slot < |out| <= |after| && (id != thought.id ==> after[slot] == out[slot])
            && after[slot].total == out[slot].total
  {
  }

  /** How the turn that first brings in a thought leaves it. */
  lemma TurnBrings(v: View, raw: seq<Hit>, allowed: Allowed, k: nat, id: nat, x: nat)
    requires v.chain.Valid() && k < |raw|
    requires !Has(After(v, raw, allowed, k), id) && Has(After(v, raw, allowed, k + 1), id)
    ensures var after := After(v, raw, allowed, k + 1);
            var slot := Slot(after, id);
            && slot < |after| && ScoredBy(v, raw, k, id, after[slot].total)
            && (x in after[slot].successorOf <==>
               (raw[k].thought.id == id && x in raw[k].successorOf) || NamedAt(v, raw, allowed, k, id, x))
  {
    hide Place, View.Invalidated, After, ComesFor, StandIn, BroughtBefore, ScoredBy;
    var before, after, hit := After(v, raw, allowed, k), After(v, raw, allowed, k + 1), raw[k];
    var comes := ComesFor(v, allowed, hit.thought.id);
    BroughtIsHad(v, raw, allowed, k, hit.thought.id);
    StepCases(v, raw, allowed, k);
    ReplacementDiffers(v, allowed, hit.thought.id);
    var bump := if v.Invalidated(hit.thought.id) then 0.0 else 0.001;
    var placed := if comes.None? then before else Place(raw, before, hit, comes.value, bump);
    if comes.Some? {
      PlaceAt(raw, before, hit, comes.value, bump, x);
      PlaceHas(raw, before, hit, comes.value, bump, id);
    }
    hide Has, Slot;
    if hit.thought.id == id {
      KeptLast(placed, hit);
      assert ScoredBy(v, raw, k, id, hit.total) by { OwnScore(v, raw, k); }
    } else {
      StandInScored(v, raw, k, comes.value, bump);
      assert Has(placed, id);
      StaysAt(placed, hit, id);
    }
  }

  lemma OwnScore(v: View, raw: seq<Hit>, k: nat)
    requires v.chain.ctx.Valid() && k < |raw|
    ensures ScoredBy(v, raw, k, raw[k].thought.id, raw[k].total)
  {
  }

  lemma KeptLast(out: seq<Hit>, hit: Hit)
    requires !Has(out, hit.thought.id)
    ensures Slot(out + [hit], hit.thought.id) == |out|
  {
    var slot := Slot(out + [hit], hit.thought.id);
    assert (out + [hit])[|out|] == hit;
  }

  lemma StaysAt(out: seq<Hit>, hit: Hit, id: nat)
    requires Has(out, id)
    ensures Slot(out + [hit], id) == Slot(out, id) < |out| && (out + [hit])[Slot(out, id)] == out[Slot(out, id)]
  {
    SlotStays(out, out + [hit], id);
  }

  // ----- The whole pass

  ghost predicate NamedBetween(v: View, raw: seq<Hit>, allowed: Allowed, k: nat, n: nat, id: nat, x: nat)
    requires v.chain.ctx.Valid() && n <= |raw|
  {
    exists j: nat :: k <= j < n && NamedAt(v, raw, allowed, j, id, x)
  }

  lemma {:induction false} ComesOutAfter(v: View, raw: seq<Hit>, allowed: Allowed, id: nat, k: nat, n: nat, x: nat)
    requires v.chain.Valid() && k < n <= |raw| && FirstBrings(v, raw, allowed, k, id)
    ensures var out := After(v, raw, allowed, n);
            var slot := Slot(out, id);
            && slot < |out| && ScoredBy(v, raw, k, id, out[slot].total)
            && (x in out[slot].successorOf <==>
               (raw[k].thought.id == id && x in raw[k].successorOf) || NamedBetween(v, raw, allowed, k, n, id, x))
  {
    hide After, NamedAt, ScoredBy, BroughtBefore, Slot;
    if n == k + 1 {
      BroughtIsHad(v, raw, allowed, k, id);
      BroughtIsHad(v, raw, allowed, k + 1, id);
      TurnBrings(v, raw, allowed, k, id, x);
      assert NamedAt(v, raw, allowed, k, id, x) <==> NamedBetween(v, raw, allowed, k, n, id, x);
    } else {
      ComesOutAfter(v, raw, allowed, id, k, n - 1, x);
      TurnKeeps(v, raw, allowed, n - 1, id, x);
      assert NamedBetween(v, raw, allowed, k, n, id, x) <==>
             NamedBetween(v, raw, allowed, k, n - 1, id, x) || NamedAt(v, raw, allowed, n - 1, id, x);
    }
  }

  /** Every hit of the output, by the raw hit that first brings its thought in: its score, and exactly the
      thoughts it names. A live hit that brings itself in keeps its score and its names. */
  lemma ComesOutWith(v: View, raw: seq<Hit>, allowed: Allowed, id: nat, k: nat)
    requires v.chain.Valid() && k < |raw| && FirstBrings(v, raw, allowed, k, id)
    ensures var out := Redirected(v, raw, allowed);
            var slot := Slot(out, id);
            && slot < |out| && ScoredBy(v, raw, k, id, out[slot].total)
            && forall x :: x in out[slot].successorOf <==>
                 (raw[k].thought.id == id && x in raw[k].successorOf) ||
                 NamedBetween(v, raw, allowed, k, |raw|, id, x)
  {
    hide After, NamedBetween, ScoredBy, FirstBrings, Slot;
    ComesOutAfter(v, raw, allowed, id, k, |raw|, 0);
    forall x: nat
      ensures var out := Redirected(v, raw, allowed);
              x in out[Slot(out, id)].successorOf <==>
              (raw[k].thought.id == id && x in raw[k].successorOf) || NamedBetween(v, raw, allowed, k, |raw|, id, x)
    {
      ComesOutAfter(v, raw, allowed, id, k, |raw|, x);
    }
  }

  /** Placing adds at most the one thought placed. */
  lemma PlaceAdds(raw: seq<Hit>, out: seq<Hit>, template: Hit, thought: Thought, bump: real)
    ensures var after := Place(raw, out, template, thought, bump);
            && |out| <= |after| <= |out| + 1
            && forall i :: 0 <= i < |after| ==> after[i].thought == if i < |out| then out[i].thought else thought
  {
    hide Slot;
  }

  /** Whatever the output holds beside the raw hits' own thoughts passes the request's filter. */
  lemma {:induction false} OthersAreAllowed(v: View, raw: seq<Hit>, allowed: Allowed, k: nat)
    requires v.chain.ctx.Valid() && k <= |raw|
    ensures forall i :: 0 <= i < |After(v, raw, allowed, k)| ==>
              Has(raw, After(v, raw, allowed, k)[i].thought.id) || allowed(After(v, raw, allowed, k)[i].thought)
  {
    if k > 0 {
      OthersAreAllowed(v, raw, allowed, k - 1);
      StepCases(v, raw, allowed, k - 1);
      var before, hit := After(v, raw, allowed, k - 1), raw[k - 1];
      var comes := ComesFor(v, allowed, hit.thought.id);
      assert Has(raw, hit.thought.id);
      if comes.Some? {
        PlaceAdds(raw, before, hit, comes.value, if v.Invalidated(hit.thought.id) then 0.0 else 0.001);
      }
      hide After, Place, Slot, View.Invalidated, Has, LiveSuccessorOf, LiveContester;
    }
  }
}
