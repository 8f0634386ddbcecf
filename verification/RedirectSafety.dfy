/** What redirected hits promise: nothing stale, nothing lost, nothing unaccounted for, and no older version ahead of
    its replacement. */
module RedirectSafety {
  import opened Wrappers
  import opened LineageIndex
  import opened VersionView
  import opened LiveSuccessor
  import opened Redirect

  // ----- The output only grows

  /** Every hit of `a` is in `b` at the same place with the same score, naming at least the same thoughts. */
  ghost predicate Grows(a: seq<Hit>, b: seq<Hit>) {
    && |a| <= |b|
    && forall i :: 0 <= i < |a| ==>
         && b[i].thought == a[i].thought && b[i].total == a[i].total
         && forall id :: id in a[i].successorOf ==> id in b[i].successorOf
  }

  lemma PlaceGrows(raw: seq<Hit>, out: seq<Hit>, template: Hit, thought: Thought, bump: real)
    ensures Grows(out, Place(raw, out, template, thought, bump))
  {
    hide Slot;
  }

  lemma StepGrows(v: View, raw: seq<Hit>, allowed: Allowed, out: seq<Hit>, hit: Hit)
    requires v.chain.ctx.Valid()
    ensures Grows(out, Step(v, raw, allowed, out, hit))
  {
    hide Place, AllowedSuccessor, AllowedContester, View.Invalidated;
    var id := hit.thought.id;
    if AllowedSuccessor(v, allowed, id).Some? {
      PlaceGrows(raw, out, hit, AllowedSuccessor(v, allowed, id).value, 0.0);
    }
    if AllowedContester(v, allowed, id).Some? {
      PlaceGrows(raw, out, hit, AllowedContester(v, allowed, id).value, CONTEST_SCORE_BUMP);
    }
  }

  lemma {:induction false} AfterGrows(v: View, raw: seq<Hit>, allowed: Allowed, j: nat, k: nat)
    requires v.chain.ctx.Valid() && j <= k <= |raw|
    ensures Grows(After(v, raw, allowed, j), After(v, raw, allowed, k))
  {
    hide Step;
    if j < k {
      AfterGrows(v, raw, allowed, j, k - 1);
      StepGrows(v, raw, allowed, After(v, raw, allowed, k - 1), raw[k - 1]);
    }
  }

  /** A thought in the output stays where it is; others come after. */
  lemma SlotStays(a: seq<Hit>, b: seq<Hit>, id: nat)
    requires Grows(a, b)
    ensures if Has(a, id) then Slot(b, id) == Slot(a, id) else Slot(a, id) == |a| <= Slot(b, id)
  {
    var slot := Slot(b, id);
    hide Slot, Has;
    if slot < |a| {
      assert a[slot].thought.id == id;
    }
  }

  // ----- Distinct, live and accounted for

  ghost predicate Distinct(out: seq<Hit>) {
    forall i, j :: 0 <= i < j < |out| ==> out[i].thought.id != out[j].thought.id
  }

  /** `thought` is the allowed successor of the superseded raw hit for `id`, or the allowed contester of
      the live one. */
  ghost predicate Replaces(v: View, raw: seq<Hit>, allowed: Allowed, thought: Thought, id: nat)
    requires v.chain.ctx.Valid()
  {
    && Has(raw, id)
    && (if v.Invalidated(id) then AllowedSuccessor(v, allowed, id) else AllowedContester(v, allowed, id)) ==
       Some(thought)
  }

  /** The hit is live, a thought of the chain, and names only thoughts it replaces (or that its raw hit
      named); it names one unless it is a raw hit itself. */
  ghost predicate Accounted(v: View, raw: seq<Hit>, allowed: Allowed, hit: Hit)
    requires v.chain.ctx.Valid()
  {
    && !v.Invalidated(hit.thought.id)
    && v.chain.ctx.ById(hit.thought.id) == Some(hit.thought)
    && (forall id :: id in hit.successorOf ==>
          Replaces(v, raw, allowed, hit.thought, id) ||
          exists j :: 0 <= j < |raw| && raw[j].thought.id == hit.thought.id && id in raw[j].successorOf)
    && (hit.successorOf == [] ==> Has(raw, hit.thought.id))
  }

  ghost predicate Sound(v: View, raw: seq<Hit>, allowed: Allowed, out: seq<Hit>)
    requires v.chain.ctx.Valid()
  {
    Distinct(out) && forall i :: 0 <= i < |out| ==> Accounted(v, raw, allowed, out[i])
  }

  /** The hits are for thoughts of the chain. */
  ghost predicate FromChain(v: View, raw: seq<Hit>)
    requires v.chain.ctx.Valid()
  {
    forall i :: 0 <= i < |raw| ==> v.chain.ctx.ById(raw[i].thought.id) == Some(raw[i].thought)
  }

  /** What the output owes one raw hit: itself when it is live, its allowed successor naming it when it
      is superseded. */
  ghost predicate Handled(v: View, allowed: Allowed, out: seq<Hit>, hit: Hit)
    requires v.chain.ctx.Valid()
  {
    var id := hit.thought.id;
    if !v.Invalidated(id) then Has(out, id)
    else
      match AllowedSuccessor(v, allowed, id)
      case None => true
      case Some(successor) =>
        var slot := Slot(out, successor.id);
        slot < |out| && out[slot].thought == successor && id in out[slot].successorOf
  }

  lemma PlaceSound(v: View, raw: seq<Hit>, allowed: Allowed, out: seq<Hit>, template: Hit, thought: Thought, bump: real)
    requires v.chain.ctx.Valid() && Sound(v, raw, allowed, out)
    requires Replaces(v, raw, allowed, thought, template.thought.id)
    requires !v.Invalidated(thought.id) && v.chain.ctx.ById(thought.id) == Some(thought)
    ensures var after := Place(raw, out, template, thought, bump);
            && Sound(v, raw, allowed, after)
            && (var slot := Slot(after, thought.id);
                slot < |after| && after[slot].thought == thought && template.thought.id in after[slot].successorOf)
  {
    hide Slot, Replaces, View.Invalidated, LastHit;
    var slot, after := Slot(out, thought.id), Place(raw, out, template, thought, bump);
    if slot == |out| {
      assert after[|out|].thought == thought && after[|out|].successorOf == [template.thought.id];
      assert Accounted(v, raw, allowed, after[|out|]);
    } else {
      assert Accounted(v, raw, allowed, out[slot]);
      assert out[slot].thought == thought;
      assert Accounted(v, raw, allowed, after[slot]);
    }
    assert after[slot].thought.id == thought.id;
  }

  /** The sources of links are thoughts of the chain. */
  lemma {:induction false} SourcesFromChain(v: View, edges: seq<Edge>, target: nat, strong: bool)
    requires v.chain.ctx.Valid()
    ensures forall t :: t in v.SourcesOf(edges, target, strong) ==> v.chain.ctx.ById(t.id) == Some(t)
  {
    if edges != [] {
      SourcesFromChain(v, edges[..|edges| - 1], target, strong);
    }
  }

  lemma ReplacementIsLive(v: View, allowed: Allowed, id: nat)
    requires v.chain.ctx.Valid()
    ensures var found := AllowedSuccessor(v, allowed, id);
            found.Some? ==> !v.Invalidated(found.value.id) && v.chain.ctx.ById(found.value.id) == Some(found.value)
    ensures var found := AllowedContester(v, allowed, id);
            found.Some? ==> !v.Invalidated(found.value.id) && v.chain.ctx.ById(found.value.id) == Some(found.value)
  {
    hide LiveSuccessorOf, View.VisibleEdges, View.SourcesOf, NewestLive;
    SuccessorIsLiveEnd(v, id);
    var found := LiveSuccessorOf(v, id);
    if found.Some? {
      var u :| Reaches(v, id, u) && found.value in v.Sources(u, true);
      SourcesFromChain(v, v.VisibleEdges(u), u, true);
    }
    NewestLiveIs(v, v.Sources(id, false));
    SourcesFromChain(v, v.VisibleEdges(id), id, false);
  }

  lemma KeepSound(v: View, raw: seq<Hit>, allowed: Allowed, out: seq<Hit>, hit: Hit)
    requires v.chain.ctx.Valid() && Sound(v, raw, allowed, out) && FromChain(v, raw) && hit in raw
    requires !v.Invalidated(hit.thought.id) && !Has(out, hit.thought.id)
    ensures Sound(v, raw, allowed, out + [hit]) && Has(out + [hit], hit.thought.id)
  {
    hide Replaces, View.Invalidated;
    var j :| 0 <= j < |raw| && raw[j] == hit;
    assert Accounted(v, raw, allowed, hit);
    assert (out + [hit])[|out|] == hit;
  }

  lemma StepSound(v: View, raw: seq<Hit>, allowed: Allowed, out: seq<Hit>, hit: Hit)
    requires v.chain.Valid() && Sound(v, raw, allowed, out) && FromChain(v, raw) && hit in raw
    ensures var after := Step(v, raw, allowed, out, hit);
            Sound(v, raw, allowed, after) && Handled(v, allowed, after, hit)
  {
    hide Place, AllowedSuccessor, AllowedContester, View.Invalidated, Sound, FromChain, Slot;
    var id := hit.thought.id;
    var j :| 0 <= j < |raw| && raw[j] == hit;
    assert raw[j].thought.id == id;
    ReplacementIsLive(v, allowed, id);
    if Has(out, id) {
      var i :| 0 <= i < |out| && out[i].thought.id == id;
      assert !v.Invalidated(id) by { LiveAt(v, raw, allowed, out, i); }
    } else if v.Invalidated(id) {
      if AllowedSuccessor(v, allowed, id).Some? {
        PlaceSound(v, raw, allowed, out, hit, AllowedSuccessor(v, allowed, id).value, 0.0);
      }
    } else if AllowedContester(v, allowed, id).Some? {
      var contester := AllowedContester(v, allowed, id).value;
      PlaceSound(v, raw, allowed, out, hit, contester, CONTEST_SCORE_BUMP);
      NotPlacedBy(v, raw, allowed, out, hit);
      KeepSound(v, raw, allowed, Place(raw, out, hit, contester, CONTEST_SCORE_BUMP), hit);
    } else {
      KeepSound(v, raw, allowed, out, hit);
    }
  }

  lemma LiveAt(v: View, raw: seq<Hit>, allowed: Allowed, out: seq<Hit>, i: nat)
    requires v.chain.ctx.Valid() && Sound(v, raw, allowed, out) && i < |out|
    ensures !v.Invalidated(out[i].thought.id)
  {
    assert Accounted(v, raw, allowed, out[i]);
  }

  lemma HandledStays(v: View, allowed: Allowed, a: seq<Hit>, b: seq<Hit>, hit: Hit)
    requires v.chain.ctx.Valid() && Grows(a, b) && Handled(v, allowed, a, hit)
    ensures Handled(v, allowed, b, hit)
  {
    hide AllowedSuccessor, View.Invalidated, Slot;
    var id := hit.thought.id;
    SlotStays(a, b, id);
    if AllowedSuccessor(v, allowed, id).Some? {
      SlotStays(a, b, AllowedSuccessor(v, allowed, id).value.id);
    }
  }

  lemma {:induction false} AfterSound(v: View, raw: seq<Hit>, allowed: Allowed, k: nat)
    requires v.chain.Valid() && FromChain(v, raw) && k <= |raw|
    ensures Sound(v, raw, allowed, After(v, raw, allowed, k))
    ensures forall j :: 0 <= j < k ==> Handled(v, allowed, After(v, raw, allowed, k), raw[j])
  {
    hide Sound, Handled, Step, FromChain;
    if k == 0 {
      NothingSound(v, raw, allowed);
    } else {
      AfterSound(v, raw, allowed, k - 1);
      var before := After(v, raw, allowed, k - 1);
      StepSound(v, raw, allowed, before, raw[k - 1]);
      StepGrows(v, raw, allowed, before, raw[k - 1]);
      forall j | 0 <= j < k - 1
        ensures Handled(v, allowed, After(v, raw, allowed, k), raw[j])
      {
        HandledStays(v, allowed, before, After(v, raw, allowed, k), raw[j]);
      }
    }
  }

  lemma NothingSound(v: View, raw: seq<Hit>, allowed: Allowed)
    requires v.chain.ctx.Valid()
    ensures Sound(v, raw, allowed, [])
  {
  }

  /** Redirected hits are distinct, live and accounted for; every live raw hit is kept and every
      superseded one with an allowed live successor has it in the output, naming it. */
  lemma RedirectedIsSound(v: View, raw: seq<Hit>, allowed: Allowed)
    requires v.chain.Valid() && FromChain(v, raw)
    ensures var out := Redirected(v, raw, allowed);
            && Sound(v, raw, allowed, out)
            && (forall j :: 0 <= j < |raw| ==> Handled(v, allowed, out, raw[j]))
            && forall i :: 0 <= i < |out| && !Has(raw, out[i].thought.id) ==>
                 out[i].successorOf != [] && forall id :: id in out[i].successorOf ==>
                   Replaces(v, raw, allowed, out[i].thought, id)
  {
    AfterSound(v, raw, allowed, |raw|);
    hide After, Replaces, Handled, View.Invalidated;
    var out := Redirected(v, raw, allowed);
    forall i | 0 <= i < |out| && !Has(raw, out[i].thought.id)
      ensures out[i].successorOf != [] && forall id :: id in out[i].successorOf ==>
              Replaces(v, raw, allowed, out[i].thought, id)
    {
      assert Accounted(v, raw, allowed, out[i]);
    }
  }

  // ----- Scores

  ghost predicate NonIncreasing(hits: seq<Hit>) {
    forall i, j :: 0 <= i < j < |hits| ==> hits[i].total >= hits[j].total
  }

  ghost predicate AtLeast(out: seq<Hit>, total: real) {
    forall i :: 0 <= i < |out| ==> out[i].total >= total
  }

  lemma PlaceAtLeast(raw: seq<Hit>, out: seq<Hit>, template: Hit, thought: Thought, bump: real)
    requires AtLeast(out, template.total) && bump >= 0.0
    ensures AtLeast(Place(raw, out, template, thought, bump), template.total)
  {
    hide Slot, LastHit;
  }

  lemma StepAtLeast(v: View, raw: seq<Hit>, allowed: Allowed, out: seq<Hit>, hit: Hit)
    requires v.chain.ctx.Valid() && AtLeast(out, hit.total)
    ensures AtLeast(Step(v, raw, allowed, out, hit), hit.total)
  {
    hide Place, AllowedSuccessor, AllowedContester, View.Invalidated;
    var id := hit.thought.id;
    if AllowedSuccessor(v, allowed, id).Some? {
      PlaceAtLeast(raw, out, hit, AllowedSuccessor(v, allowed, id).value, 0.0);
    }
    if AllowedContester(v, allowed, id).Some? {
      PlaceAtLeast(raw, out, hit, AllowedContester(v, allowed, id).value, CONTEST_SCORE_BUMP);
    }
  }

  /** Everything placed so far scores at least as much as the last raw hit looked at. */
  lemma {:induction false} AfterAtLeast(v: View, raw: seq<Hit>, allowed: Allowed, k: nat)
    requires v.chain.ctx.Valid() && NonIncreasing(raw) && k <= |raw|
    ensures k > 0 ==> AtLeast(After(v, raw, allowed, k), raw[k - 1].total)
    ensures k < |raw| ==> AtLeast(After(v, raw, allowed, k), raw[k].total)
  {
    hide Step;
    if k > 0 {
      AfterAtLeast(v, raw, allowed, k - 1);
      StepAtLeast(v, raw, allowed, After(v, raw, allowed, k - 1), raw[k - 1]);
    }
  }

  /** From falling scores, the successor of every replaced hit scores at least as much as that hit. */
  lemma SuccessorScores(v: View, raw: seq<Hit>, allowed: Allowed, j: nat)
    requires v.chain.Valid() && FromChain(v, raw) && NonIncreasing(raw) && j < |raw|
    requires v.Invalidated(raw[j].thought.id) && AllowedSuccessor(v, allowed, raw[j].thought.id).Some?
    ensures var out, successor := Redirected(v, raw, allowed), AllowedSuccessor(v, allowed, raw[j].thought.id).value;
            var slot := Slot(out, successor.id);
            slot < |out| && out[slot].thought == successor && out[slot].total >= raw[j].total
  {
    hide Step, AllowedSuccessor, View.Invalidated, Slot, Sound, FromChain, AtLeast, Grows;
    AfterSound(v, raw, allowed, j + 1);
    AfterAtLeast(v, raw, allowed, j + 1);
    AfterGrows(v, raw, allowed, j + 1, |raw|);
    ScoreStays(After(v, raw, allowed, j + 1), Redirected(v, raw, allowed),
               AllowedSuccessor(v, allowed, raw[j].thought.id).value, raw[j].total);
  }

  lemma ScoreStays(a: seq<Hit>, b: seq<Hit>, thought: Thought, total: real)
    requires Grows(a, b) && AtLeast(a, total)
    requires Slot(a, thought.id) < |a| && a[Slot(a, thought.id)].thought == thought
    ensures var slot := Slot(b, thought.id); slot < |b| && b[slot].thought == thought && b[slot].total >= total
  {
    SlotStays(a, b, thought.id);
  }

  /** A live raw hit with an allowed contester that was not placed for another hit before its turn comes
      after its contester, and from falling scores does not outscore it. */
  lemma ContesterScores(v: View, raw: seq<Hit>, allowed: Allowed, j: nat)
    requires v.chain.Valid() && FromChain(v, raw) && NonIncreasing(raw) && j < |raw|
    requires !v.Invalidated(raw[j].thought.id) && AllowedContester(v, allowed, raw[j].thought.id).Some?
    requires !Has(After(v, raw, allowed, j), raw[j].thought.id)
    ensures var out, contester := Redirected(v, raw, allowed), AllowedContester(v, allowed, raw[j].thought.id).value;
            var own, ahead := Slot(out, raw[j].thought.id), Slot(out, contester.id);
            && ahead < own < |out|
            && out[own].total == raw[j].total && out[ahead].thought == contester
            && out[ahead].total >= out[own].total
  {
    hide Slot, Step, AllowedContester, View.Invalidated, Place;
    var id, contester := raw[j].thought.id, AllowedContester(v, allowed, raw[j].thought.id).value;
    var before, here, out := After(v, raw, allowed, j), After(v, raw, allowed, j + 1), Redirected(v, raw, allowed);
    AfterSound(v, raw, allowed, j);
    ReplacementIsLive(v, allowed, id);
    OwnTurn(v, raw, allowed, before, raw[j]);
    AfterAtLeast(v, raw, allowed, j + 1);
    AfterGrows(v, raw, allowed, j + 1, |raw|);
    SlotStays(here, out, id);
    SlotStays(here, out, contester.id);
  }

  lemma OwnTurn(v: View, raw: seq<Hit>, allowed: Allowed, out: seq<Hit>, hit: Hit)
    requires v.chain.Valid() && Sound(v, raw, allowed, out) && hit in raw
    requires !v.Invalidated(hit.thought.id) && AllowedContester(v, allowed, hit.thought.id).Some?
    requires !Has(out, hit.thought.id)
    ensures var after, contester := Step(v, raw, allowed, out, hit), AllowedContester(v, allowed, hit.thought.id).value;
            var own, ahead := Slot(after, hit.thought.id), Slot(after, contester.id);
            && ahead < own == |after| - 1 && after[own] == hit && after[ahead].thought == contester
            && Has(after, hit.thought.id) && Has(after, contester.id)
  {
    hide Slot, AllowedContester, View.Invalidated, Place, Sound;
    var id, contester := hit.thought.id, AllowedContester(v, allowed, hit.thought.id).value;
    var j :| 0 <= j < |raw| && raw[j] == hit;
    assert raw[j].thought.id == id;
    ReplacementIsLive(v, allowed, id);
    PlaceSound(v, raw, allowed, out, hit, contester, CONTEST_SCORE_BUMP);
    var placed := Place(raw, out, hit, contester, CONTEST_SCORE_BUMP);
    var after := Step(v, raw, allowed, out, hit);
    assert after == placed + [hit];
    NotPlacedBy(v, raw, allowed, out, hit);
    SlotStays(placed, after, contester.id);
    SlotStays(placed, after, id);
    assert after[|placed|].thought.id == id;
  }

  // ----- A later stable sort by score

  /** After every hit that scores at least as much. */
  function InsertByScore(sorted: seq<Hit>, hit: Hit): seq<Hit> {
    if sorted == [] || sorted[|sorted| - 1].total >= hit.total then sorted + [hit]
    else InsertByScore(sorted[..|sorted| - 1], hit) + [sorted[|sorted| - 1]]
  }

  function SortByScore(hits: seq<Hit>): seq<Hit> {
    if hits == [] then [] else InsertByScore(SortByScore(hits[..|hits| - 1]), hits[|hits| - 1])
  }

  ghost predicate Before(hits: seq<Hit>, a: Hit, b: Hit) {
    exists i, j :: 0 <= i < j < |hits| && hits[i] == a && hits[j] == b
  }

  lemma BeforeIn(hits: seq<Hit>, more: seq<Hit>, a: Hit, b: Hit)
    ensures Before(hits, a, b) ==> Before(hits + more, a, b)
    ensures a in hits && b in more ==> Before(hits + more, a, b)
  {
    if Before(hits, a, b) {
      var i, j :| 0 <= i < j < |hits| && hits[i] == a && hits[j] == b;
      assert (hits + more)[i] == a && (hits + more)[j] == b;
    }
    if a in hits && b in more {
      var i, j :| 0 <= i < |hits| && 0 <= j < |more| && hits[i] == a && more[j] == b;
      assert (hits + more)[i] == a && (hits + more)[|hits| + j] == b;
    }
  }

  lemma {:induction false} InsertOrder(sorted: seq<Hit>, hit: Hit, a: Hit, b: Hit)
    ensures Before(sorted, a, b) ==> Before(InsertByScore(sorted, hit), a, b)
    ensures a in sorted && a.total >= hit.total ==> Before(InsertByScore(sorted, hit), a, hit)
    ensures forall h :: h in InsertByScore(sorted, hit) <==> h in sorted || h == hit
  {
    if sorted == [] || sorted[|sorted| - 1].total >= hit.total {
      BeforeIn(sorted, [hit], a, b);
      BeforeIn(sorted, [hit], a, hit);
    } else {
      var front, last := sorted[..|sorted| - 1], sorted[|sorted| - 1];
      assert sorted == front + [last];
      InsertOrder(front, hit, a, b);
      BeforeIn(InsertByScore(front, hit), [last], a, b);
      BeforeIn(InsertByScore(front, hit), [last], a, hit);
      if Before(sorted, a, b) {
        assert Before(front, a, b) || (a in front && b == last);
      }
    }
  }

  lemma {:induction false} InsertSorts(sorted: seq<Hit>, hit: Hit)
    requires NonIncreasing(sorted)
    ensures NonIncreasing(InsertByScore(sorted, hit))
  {
    if sorted != [] && sorted[|sorted| - 1].total < hit.total {
      var front, last := sorted[..|sorted| - 1], sorted[|sorted| - 1];
      InsertSorts(front, hit);
      InsertOrder(front, hit, hit, hit);
      assert InsertByScore(sorted, hit) == InsertByScore(front, hit) + [last];
      hide InsertByScore;
      forall k | 0 <= k < |InsertByScore(front, hit)|
        ensures InsertByScore(front, hit)[k].total >= last.total
      {
        assert InsertByScore(front, hit)[k] in InsertByScore(front, hit);
      }
    }
  }

  lemma {:induction false} InsertAdds(sorted: seq<Hit>, hit: Hit)
    ensures multiset(InsertByScore(sorted, hit)) == multiset(sorted) + multiset{hit}
  {
    if sorted != [] && sorted[|sorted| - 1].total < hit.total {
      InsertAdds(sorted[..|sorted| - 1], hit);
      assert sorted == sorted[..|sorted| - 1] + [sorted[|sorted| - 1]];
    }
  }

  lemma {:induction false} SortIsSorted(hits: seq<Hit>)
    ensures NonIncreasing(SortByScore(hits)) && multiset(SortByScore(hits)) == multiset(hits)
  {
    if hits != [] {
      SortIsSorted(hits[..|hits| - 1]);
      InsertSorts(SortByScore(hits[..|hits| - 1]), hits[|hits| - 1]);
      InsertAdds(SortByScore(hits[..|hits| - 1]), hits[|hits| - 1]);
      assert hits == hits[..|hits| - 1] + [hits[|hits| - 1]];
    }
  }

  /** A hit that comes before another one it does not trail in score is still before it after sorting. */
  lemma {:induction false} SortKeepsOrder(hits: seq<Hit>, a: Hit, b: Hit)
    requires Before(hits, a, b) && a.total >= b.total
    ensures Before(SortByScore(hits), a, b)
  {
    var front, last := hits[..|hits| - 1], hits[|hits| - 1];
    assert hits == front + [last];
    var sorted := SortByScore(front);
    InsertOrder(sorted, last, a, b);
    if Before(front, a, b) {
      SortKeepsOrder(front, a, b);
    } else {
      assert a in front && b == last;
      SortHolds(front);
    }
  }

  lemma SortHolds(hits: seq<Hit>)
    ensures forall h :: h in hits ==> h in SortByScore(hits)
  {
    SortIsSorted(hits);
    forall h | h in hits
      ensures h in SortByScore(hits)
    {
      assert h in multiset(hits);
    }
  }

  /** The contester of a hit that had its own turn stays ahead of it when the output is sorted by score again. */
  lemma ContesterStaysAhead(v: View, raw: seq<Hit>, allowed: Allowed, j: nat)
    requires v.chain.Valid() && FromChain(v, raw) && NonIncreasing(raw) && j < |raw|
    requires !v.Invalidated(raw[j].thought.id) && AllowedContester(v, allowed, raw[j].thought.id).Some?
    requires !Has(After(v, raw, allowed, j), raw[j].thought.id)
    ensures exists own, ahead ::
              && Before(SortByScore(Redirected(v, raw, allowed)), ahead, own)
              && own.thought.id == raw[j].thought.id
              && ahead.thought == AllowedContester(v, allowed, raw[j].thought.id).value
  {
    hide Slot, After, AllowedContester, View.Invalidated, FromChain, NonIncreasing, SortByScore;
    ContesterScores(v, raw, allowed, j);
    var out := Redirected(v, raw, allowed);
    var own, ahead := Slot(out, raw[j].thought.id), Slot(out, AllowedContester(v, allowed, raw[j].thought.id).value.id);
    assert out[own].thought.id == raw[j].thought.id;
    SortKeepsOrder(out, out[ahead], out[own]);
  }

}
