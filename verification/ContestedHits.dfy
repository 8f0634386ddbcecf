/** Exactly which contested hits come out behind the thought contesting them, and an input where one does not. */
module ContestedHits {
  import opened Wrappers
  import opened Audience
  import opened LineageIndex
  import opened VersionView
  import opened ChainGrowth
  import opened LiveSuccessor
  import opened Redirect
  import opened RedirectSafety

  // ----- Which thoughts are placed, and when

  function IdOf(thought: Option<Thought>): set<nat> {
    if thought.Some? then {thought.value.id} else {}
  }

  /** The thoughts a hit for `id` brings into the output when it takes its turn. */
  function Brings(v: View, allowed: Allowed, id: nat): set<nat>
    requires v.chain.ctx.Valid()
  {
    if v.Invalidated(id) then IdOf(AllowedSuccessor(v, allowed, id)) else {id} + IdOf(AllowedContester(v, allowed, id))
  }

  /** The thoughts brought in before the turn of the `k`-th raw hit; a hit takes no turn when its
      thought was brought in before. */
  function BroughtBefore(v: View, raw: seq<Hit>, allowed: Allowed, k: nat): set<nat>
    requires v.chain.ctx.Valid() && k <= |raw|
  {
    if k == 0 then {}
    else
      var before, id := BroughtBefore(v, raw, allowed, k - 1), raw[k - 1].thought.id;
      if id in before then before else before + Brings(v, allowed, id)
  }

  /** The `k`-th raw hit is the first whose turn brings in `id`. */
  predicate FirstBrings(v: View, raw: seq<Hit>, allowed: Allowed, k: nat, id: nat)
    requires v.chain.ctx.Valid() && k < |raw|
  {
    id !in BroughtBefore(v, raw, allowed, k) && id in BroughtBefore(v, raw, allowed, k + 1)
  }

  lemma StepHas(v: View, raw: seq<Hit>, allowed: Allowed, out: seq<Hit>, hit: Hit, id: nat)
    requires v.chain.ctx.Valid()
    ensures Has(Step(v, raw, allowed, out, hit), id) <==>
            Has(out, id) || (!Has(out, hit.thought.id) && id in Brings(v, allowed, hit.thought.id))
  {
    hide Place, AllowedSuccessor, AllowedContester, View.Invalidated, Has;
    var own := hit.thought.id;
    if !Has(out, own) {
      if v.Invalidated(own) {
        if AllowedSuccessor(v, allowed, own).Some? {
          PlaceHas(raw, out, hit, AllowedSuccessor(v, allowed, own).value, 0.0, id);
        }
      } else if AllowedContester(v, allowed, own).Some? {
        var contester := AllowedContester(v, allowed, own).value;
        PlaceHas(raw, out, hit, contester, CONTEST_SCORE_BUMP, id);
        HasMore(Place(raw, out, hit, contester, CONTEST_SCORE_BUMP), hit, id);
      } else {
        HasMore(out, hit, id);
      }
    }
  }

  lemma HasMore(out: seq<Hit>, hit: Hit, id: nat)
    ensures Has(out + [hit], id) <==> Has(out, id) || hit.thought.id == id
  {
    var more := out + [hit];
    assert more[|out|] == hit && forall i :: 0 <= i < |out| ==> more[i] == out[i];
  }

  /** What was brought in is what the output holds. */
  lemma {:induction false} BroughtIsHad(v: View, raw: seq<Hit>, allowed: Allowed, k: nat, id: nat)
    requires v.chain.ctx.Valid() && k <= |raw|
    ensures Has(After(v, raw, allowed, k), id) <==> id in BroughtBefore(v, raw, allowed, k)
  {
    hide Step, Brings;
    if k > 0 {
      var before, hit := After(v, raw, allowed, k - 1), raw[k - 1];
      BroughtIsHad(v, raw, allowed, k - 1, id);
      BroughtIsHad(v, raw, allowed, k - 1, hit.thought.id);
      StepHas(v, raw, allowed, before, hit, id);
    }
  }

  /** Every thought of the output is first brought in by one hit. */
  lemma SomeHitBrings(v: View, raw: seq<Hit>, allowed: Allowed, id: nat) returns (k: nat)
    requires v.chain.ctx.Valid() && Has(Redirected(v, raw, allowed), id)
    ensures k < |raw| && FirstBrings(v, raw, allowed, k, id)
  {
    BroughtIsHad(v, raw, allowed, |raw|, id);
    hide Brings, Has;
    k := |raw|;
    while id in BroughtBefore(v, raw, allowed, k)
      invariant k <= |raw| && (k < |raw| || id in BroughtBefore(v, raw, allowed, k))
      decreases k
      invariant k < |raw| ==> id in BroughtBefore(v, raw, allowed, k + 1)
    {
      k := k - 1;
    }
  }

  /** A thought another hit brings in goes right to the end of what was there. */
  lemma StandInGoesNext(v: View, raw: seq<Hit>, allowed: Allowed, out: seq<Hit>, hit: Hit, id: nat)
    requires v.chain.ctx.Valid() && !Has(out, id) && hit.thought.id != id
    requires Has(Step(v, raw, allowed, out, hit), id)
    ensures var after := Step(v, raw, allowed, out, hit); |out| < |after| && after[|out|].thought.id == id
  {
    hide AllowedSuccessor, AllowedContester, View.Invalidated, Has;
    StepHas(v, raw, allowed, out, hit, id);
  }

  /** When a contested thought of the output comes behind its allowed contester, for every raw list and
      whether or not the thought is a raw hit: the hit that first brings it in is its own, or the contester
      was brought in even earlier. A thought brought in for another hit does not bring in its contester. */
  lemma ContesterIsAheadIff(v: View, raw: seq<Hit>, allowed: Allowed, id: nat, k: nat)
    requires v.chain.Valid() && FromChain(v, raw) && k < |raw|
    requires !v.Invalidated(id) && AllowedContester(v, allowed, id).Some?
    requires FirstBrings(v, raw, allowed, k, id)
    ensures var out, contester := Redirected(v, raw, allowed), AllowedContester(v, allowed, id).value;
            Slot(out, contester.id) < Slot(out, id) <==>
            raw[k].thought.id == id || contester.id in BroughtBefore(v, raw, allowed, k)
  {
    hide Slot, AllowedContester, View.Invalidated, Place, Step, Brings, After, Sound, FromChain, Grows, BroughtBefore;
    var contester := AllowedContester(v, allowed, id).value;
    var before, here, out := After(v, raw, allowed, k), After(v, raw, allowed, k + 1), Redirected(v, raw, allowed);
    BroughtIsHad(v, raw, allowed, k, id);
    BroughtIsHad(v, raw, allowed, k + 1, id);
    BroughtIsHad(v, raw, allowed, k, contester.id);
    AfterNext(v, raw, allowed, k);
    AfterGrows(v, raw, allowed, k, |raw|);
    AfterGrows(v, raw, allowed, k + 1, |raw|);
    SlotStays(before, out, id);
    SlotStays(before, out, contester.id);
    SlotStays(here, out, id);
    if raw[k].thought.id == id {
      AfterSound(v, raw, allowed, k);
      OwnTurn(v, raw, allowed, before, raw[k]);
      SlotStays(here, out, contester.id);
    } else {
      StandInGoesNext(v, raw, allowed, before, raw[k], id);
    }
  }

  lemma AfterNext(v: View, raw: seq<Hit>, allowed: Allowed, k: nat)
    requires v.chain.ctx.Valid() && k < |raw|
    ensures After(v, raw, allowed, k + 1) == Step(v, raw, allowed, After(v, raw, allowed, k), raw[k])
    ensures Redirected(v, raw, allowed) == After(v, raw, allowed, |raw|)
  {
  }

  // ----- An input that leaves the contester out

  /** A decision, its replacement, and a correction that refers to the replacement, as appends store them. */
  function Story(k: nat): Thought {
    if k == 0 then Thought(0, 0, 0, "agent", Decision, false, [], [])
    else if k == 1 then
      Thought(1, 1, 1, "agent", Decision, false, [Relation(RelationKind.Supersedes, 0, None, Some(1), None)], [])
    else Thought(k, k, k, "agent", ThoughtType.Correction, false, [Relation(References, 1, None, Some(k), None)], [1])
  }

  ghost predicate HoldsStory(m: nat, c: Chain) {
    && c.Valid() && c.ctx.Valid() && c.segments == NO_SEGMENTS && |c.ctx.thoughts| == m
    && forall k :: 0 <= k < m ==> c.ctx.thoughts[k] == Story(k) && k in c.ctx.idToIndex && c.ctx.idToIndex[k] == k
  }

  lemma StoryStep(m: nat, c: Chain)
    requires HoldsStory(m, c)
    ensures c.Valid() && Fresh(c, Story(m)) && HoldsStory(m + 1, Append(c, Story(m), NO_SEGMENTS, {}))
  {
    hide Append, Chain.Valid;
    AppendKeepsValid(c, Story(m), NO_SEGMENTS, {});
    AppendKnows(c, Story(m), NO_SEGMENTS, {});
  }

  lemma NoStory()
    ensures HoldsStory(0, EMPTY_CHAIN)
  {
  }

  function StoryChain(m: nat): (c: Chain)
    ensures HoldsStory(m, c)
  {
    hide Append, HoldsStory, Story;
    NoStory();
    if m == 0 then EMPTY_CHAIN
    else
      StoryStep(m - 1, StoryChain(m - 1));
      Append(StoryChain(m - 1), Story(m - 1), NO_SEGMENTS, {})
  }

  function StoryView(): View {
    View(StoryChain(3), 2, None, Authorized)
  }

  lemma StoryGrows(m: nat)
    ensures StoryChain(m).Valid() && Fresh(StoryChain(m), Story(m))
    ensures StoryChain(m + 1) == Append(StoryChain(m), Story(m), NO_SEGMENTS, {})
    ensures StoryChain(0) == EMPTY_CHAIN
  {
    StoryStep(m, StoryChain(m));
    hide Append, HoldsStory, Story;
  }

  const NEW_EDGE := Edge(1, 1, 1, SuccessorKind.Supersedes, Some(1), None)
  const CORRECTION_EDGE := Edge(2, 2, 2, SuccessorKind.Contests, Some(2), None)

  const NEW_LINK := Link(0, SuccessorKind.Supersedes, Some(1), None)
  const CORRECTION_LINK := Link(1, SuccessorKind.Contests, Some(2), None)
  const REF_LINK := Link(1, SuccessorKind.Contests, None, None)

  /** The first `k + 1` thoughts resolve. */
  ghost predicate Resolves(ctx: Context, k: nat) {
    && ctx.Valid() && |ctx.thoughts| == k + 1
    && forall j :: 0 <= j <= k ==> ctx.thoughts[j] == Story(j) && j in ctx.idToIndex && ctx.idToIndex[j] == j
  }

  lemma StoryKinds()
    ensures ContestKind(Decision, Some(RelationKind.Supersedes), Decision) == Some(SuccessorKind.Supersedes)
    ensures ContestKind(ThoughtType.Correction, Some(References), Decision) == Some(Contests)
    ensures ContestKind(ThoughtType.Correction, None, Decision) == Some(Contests)
  {
  }

  lemma StoryRelations(k: nat, ctx: Context)
    requires 0 < k < 3 && ctx.Valid() && ctx.ById(k - 1) == Some(Story(k - 1))
    ensures RelationLinks(ctx, Story(k), Story(k).relations) == [if k == 1 then NEW_LINK else CORRECTION_LINK]
  {
    StoryKinds();
    hide Context.Valid, Context.ById, ContestKind;
    var t := Story(k);
    RelationLinksMore(ctx, t, [], t.relations[0]);
    assert [] + [t.relations[0]] == t.relations && RelationLinks(ctx, t, []) == [];
    hide RelationLinks;
  }

  lemma StoryRefs(ctx: Context)
    requires |ctx.thoughts| > 1 && ctx.thoughts[1] == Story(1)
    ensures RefLinks(ctx, Story(2), Story(2).refs) == [REF_LINK]
  {
    StoryKinds();
    hide ContestKind;
    RefLinksMore(ctx, Story(2), [], 1);
    assert [] + [1] == Story(2).refs && RefLinks(ctx, Story(2), []) == [];
    hide RefLinks;
  }

  lemma StoryLinks(k: nat, ctx: Context)
    requires k < 3 && Resolves(ctx, k)
    ensures LinksOf(ctx, Story(k)) == if k == 0 then [] else if k == 1 then [NEW_LINK] else [CORRECTION_LINK, REF_LINK]
  {
    if k > 0 {
      assert ctx.thoughts[k - 1] == Story(k - 1);
      StoryRelations(k, ctx);
    }
    if k == 2 {
      StoryRefs(ctx);
      assert [CORRECTION_LINK] + [REF_LINK] == [CORRECTION_LINK, REF_LINK];
    }
    assert k < 2 ==> RefLinks(ctx, Story(k), Story(k).refs) == [];
    assert k == 0 ==> RelationLinks(ctx, Story(k), Story(k).relations) == [];
    hide RelationLinks, RefLinks, Context.Valid;
  }

  /** What each thought of the story adds to the edges into a target. */
  lemma StoryContribution(k: nat, ctx: Context, target: nat)
    requires k < 3 && Resolves(ctx, k)
    ensures Contribution(Story(k), ctx, target) ==
            if k == 1 && target == 0 then [NEW_EDGE] else if k == 2 && target == 1 then [CORRECTION_EDGE] else []
  {
    StoryLinks(k, ctx);
    hide LinksOf, Context.Valid;
    BestMore([], NEW_LINK, target);
    BestMore([], CORRECTION_LINK, target);
    BestMore([CORRECTION_LINK], REF_LINK, target);
    assert [] + [NEW_LINK] == [NEW_LINK] && [] + [CORRECTION_LINK] == [CORRECTION_LINK];
    assert [CORRECTION_LINK] + [REF_LINK] == [CORRECTION_LINK, REF_LINK];
  }

  lemma {:induction false} StoryEdges(m: nat, target: nat)
    requires m <= 3
    ensures EdgesOf(StoryChain(m).byTarget, target) ==
            if m > 1 && target == 0 then [NEW_EDGE] else if m > 2 && target == 1 then [CORRECTION_EDGE] else []
    ensures StoryChain(m).InvalidatingEdges(target) ==
            if m > 1 && target == 0 then [InvalidatingEdge(1, 1, Some(1), None)] else []
  {
    hide Append, StoryChain, Contribution, Chain.Valid, HoldsStory, Resolves, Story;
    StoryGrows(0);
    if m > 0 {
      StoryResolves(m);
      StoryGrows(m - 1);
      StoryEdges(m - 1, target);
      AppendEdges(StoryChain(m - 1), Story(m - 1), NO_SEGMENTS, {}, target);
      AppendInvalidatingEdges(StoryChain(m - 1), Story(m - 1), NO_SEGMENTS, {}, target);
      StoryContribution(m - 1, StoryChain(m).ctx, target);
      StoryInvalidates(m - 1, target);
    }
  }

  lemma StoryResolves(m: nat)
    requires 0 < m
    ensures Resolves(StoryChain(m).ctx, m - 1)
  {
    hide StoryChain, Story, Chain.Valid, Context.Valid;
  }

  lemma StoryInvalidates(k: nat, target: nat)
    requires k < 3
    ensures InvalidatingLinks(Story(k), |Story(k).relations|, target) ==
            if k == 1 && target == 0 then [InvalidatingEdge(1, 1, Some(1), None)] else []
  {
    if k > 0 {
      assert InvalidatingLinks(Story(k), 0, target) == [];
    }
  }

  /** Only the decision is superseded. */
  lemma StoryInvalidated(id: nat)
    ensures StoryView().Invalidated(id) <==> id == 0
  {
    StoryEdges(3, id);
    StoryContext();
    hide StoryChain, HoldsStory, Context.Valid, Chain.LinkAuthorized, InForce;
    var c := StoryView().chain;
    OpenChain(id);
    assert InForce(1, Some(1), None, 2);
    assert id == 0 ==> c.InvalidatingEdges(id)[0] == InvalidatingEdge(1, 1, Some(1), None);
  }

  lemma StoryContext()
    ensures StoryView().chain.ctx.Valid() && StoryView().chain.segments == NO_SEGMENTS
    ensures forall k :: 0 <= k < 3 ==> StoryView().chain.ctx.ById(k) == Some(Story(k))
    ensures StoryView().chain.ctx.ById(NEW_EDGE.sourceId) == Some(Story(1))
    ensures StoryView().chain.ctx.ById(CORRECTION_EDGE.sourceId) == Some(Story(2))
  {
    hide Story;
  }

  lemma OpenChain(target: nat)
    requires StoryView().chain.ctx.Valid() && StoryView().chain.segments == NO_SEGMENTS
    ensures var v := StoryView();
            && !v.chain.segments.HasPrivate()
            && v.chain.LinkAuthorized(1, target) && v.chain.LinkAuthorized(2, target)
            && v.Counts(NEW_EDGE) && v.Counts(CORRECTION_EDGE)
            && NEW_EDGE.kind.IsStrong() && !CORRECTION_EDGE.kind.IsStrong()
            && NEW_EDGE.sourceIndex == 1 && CORRECTION_EDGE.sourceIndex == 2
  {
    hide StoryChain, Context.Valid;
  }

  lemma StoryViewEdges(id: nat)
    ensures EdgesOf(StoryView().chain.byTarget, id) ==
            if id == 0 then [NEW_EDGE] else if id == 1 then [CORRECTION_EDGE] else []
  {
    StoryEdges(3, id);
    hide StoryChain, Story;
  }

  lemma OldIsReplaced()
    ensures StoryView().chain.ctx.Valid() && StoryView().Sources(0, true) == [Story(1)]
  {
    hide *;
    StoryViewEdges(0);
    StoryContext();
    OpenChain(0);
    OneEdgeSources(StoryView(), NEW_EDGE, 0, Story(1), true);
  }

  lemma NewIsContested()
    ensures StoryView().chain.ctx.Valid() && StoryView().Sources(1, false) == [Story(2)]
  {
    hide *;
    StoryViewEdges(1);
    StoryContext();
    OpenChain(1);
    OneEdgeSources(StoryView(), CORRECTION_EDGE, 1, Story(2), false);
  }

  /** A single counting link has the one source. */
  lemma OneEdgeSources(v: View, e: Edge, target: nat, source: Thought, strong: bool)
    requires v.chain.ctx.Valid() && EdgesOf(v.chain.byTarget, target) == [e] && e.kind.IsStrong() == strong
    requires v.Counts(e) && v.chain.LinkAuthorized(e.sourceIndex, target) &&
             v.chain.ctx.ById(e.sourceId) == Some(source)
    ensures v.Sources(target, strong) == [source]
  {
    hide View.Counts, Chain.LinkAuthorized, Context.Valid, Context.ById;
    assert [e][..0] == [];
    assert v.Filter([]) == [] && v.Filter([e]) == [e];
    assert v.SourcesOf([], target, true) == [] && v.SourcesOf([], target, false) == [];
    assert v.VisibleEdges(target) == [e];
  }

  lemma StoryWalk()
    ensures StoryView().chain.ctx.Valid() && LiveSuccessorOf(StoryView(), 0) == Some(Story(1))
    ensures LiveContester(StoryView(), 1) == Some(Story(2))
  {
    OldIsReplaced();
    NewIsContested();
    StoryInvalidated(1);
    StoryInvalidated(2);
    hide StoryView, Context.Valid, View.Invalidated, View.Sources;
    OneStepWalk(StoryView(), 0, Story(1));
  }

  lemma OneStepWalk(v: View, id: nat, t: Thought)
    requires v.chain.ctx.Valid() && v.Sources(id, true) == [t]
    requires Pushed(v, [t]) == [] && Improved(v, None, [t]) == Some(t)
    ensures LiveSuccessorOf(v, id) == Some(t)
  {
    hide View.Sources, Pushed, Improved, Context.Valid;
    assert [id][..0] + [] == [];
    assert Walk(v, [], {} + {id}, 1, Some(t)) == Some(t);
  }

  /** A superseded hit followed by its successor's own hit, which is passed over with its contester. */
  lemma SecondHitPassedOver(v: View, allowed: Allowed, raw: seq<Hit>)
    requires v.chain.ctx.Valid() && |raw| == 2 && raw[0].thought.id != raw[1].thought.id
    requires v.Invalidated(raw[0].thought.id) && AllowedSuccessor(v, allowed, raw[0].thought.id) == Some(raw[1].thought)
    ensures Redirected(v, raw, allowed) ==
            [Hit(raw[1].thought, Higher(raw[1].total, raw[0].total + 0.0), [raw[0].thought.id])]
  {
    hide View.Invalidated, AllowedSuccessor, Context.Valid, Higher;
    var placed := Hit(raw[1].thought, Higher(raw[1].total, raw[0].total + 0.0), [raw[0].thought.id]);
    assert LastHit(raw, raw[1].thought.id) == Some(raw[1]);
    assert After(v, raw, allowed, 0) == [];
    assert After(v, raw, allowed, 1) == [placed];
    assert [placed][0].thought.id == raw[1].thought.id;
  }

  /** A superseded hit alone: its successor takes its place, and nobody contesting it comes along. */
  lemma LoneHitReplaced(v: View, allowed: Allowed, hit: Hit)
    requires v.chain.ctx.Valid() && v.Invalidated(hit.thought.id)
    requires AllowedSuccessor(v, allowed, hit.thought.id).Some?
    requires AllowedSuccessor(v, allowed, hit.thought.id).value.id != hit.thought.id
    ensures Redirected(v, [hit], allowed) ==
            [Hit(AllowedSuccessor(v, allowed, hit.thought.id).value, Higher(hit.total, hit.total + 0.0),
              [hit.thought.id])]
  {
    hide View.Invalidated, AllowedSuccessor, Context.Valid, Higher;
    assert LastHit([hit], AllowedSuccessor(v, allowed, hit.thought.id).value.id) == None by { assert [hit][..0] == []; }
    assert After(v, [hit], allowed, 0) == [];
  }

  /** The two raw hits: the superseded decision, and its replacement on its own. */
  function StoryHits(first: real, second: real): seq<Hit> {
    [Hit(Story(0), first, []), Hit(Story(1), second, [])]
  }

  lemma StoryHitsFromChain(first: real, second: real)
    ensures StoryView().chain.Valid() && StoryView().chain.ctx.Valid() &&
            FromChain(StoryView(), StoryHits(first, second))
  {
    StoryContext();
    StoryViewIsValid();
    hide StoryView, Story, Context.Valid, Context.ById, Chain.Valid;
  }

  lemma StoryViewIsValid()
    ensures StoryView().chain.Valid()
  {
    hide StoryChain, Chain.Valid, Context.Valid, Story;
  }

  const ANY: Allowed := t => true

  /** The replacement takes the decision's place, its own hit, if it has one, is passed over, and the
      correction that contests it is not in the output at all, though it is allowed. */
  lemma ContesterLeftOut(first: real, second: real)
    ensures var v, raw := StoryView(), StoryHits(first, second);
            && v.chain.Valid() && FromChain(v, raw) && !v.Invalidated(1)
            && AllowedContester(v, ANY, 1) == Some(Story(2))
            && Redirected(v, [Hit(Story(0), first, [])], ANY) == [Hit(Story(1), Higher(first, first + 0.0), [0])]
            && Redirected(v, raw, ANY) == [Hit(Story(1), Higher(second, first + 0.0), [0])]
  {
    StoryWalk();
    StoryInvalidated(0);
    StoryInvalidated(1);
    StoryContext();
    StoryHitsFromChain(first, second);
    hide StoryView, FromChain, View.Invalidated, LiveSuccessorOf, LiveContester, Chain.Valid, Higher, Redirected;
    SecondHitPassedOver(StoryView(), ANY, StoryHits(first, second));
    LoneHitReplaced(StoryView(), ANY, Hit(Story(0), first, []));
  }
}
