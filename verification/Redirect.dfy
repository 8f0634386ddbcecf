/** Rewriting ranked hits so that no reader is left holding a stale version. */
module Redirect {
  import opened Wrappers
  import opened LineageIndex
  import opened VersionView
  import opened LiveSuccessor

  const CONTEST_SCORE_BUMP: real := 0.001

  /** A ranked hit: its thought, its total score, and the superseded thoughts folded into it. */
  datatype Hit = Hit(thought: Thought, total: real, successorOf: seq<nat>)

  type Allowed = Thought -> bool

  predicate Has(out: seq<Hit>, id: nat) {
    exists i :: 0 <= i < |out| && out[i].thought.id == id
  }

  /** Where `id` is in the output; its length when it is not there. */
  function Slot(out: seq<Hit>, id: nat): (slot: nat)
    ensures slot <= |out|
    ensures Has(out, id) <==> slot < |out|
    ensures slot < |out| ==> out[slot].thought.id == id
    ensures forall i :: 0 <= i < slot ==> out[i].thought.id != id
  {
    if out == [] then 0 else if out[0].thought.id == id then 0 else 1 + Slot(out[1..], id)
  }

  /** The last raw hit for `id`, if any. */
  function LastHit(raw: seq<Hit>, id: nat): Option<Hit> {
    if raw == [] then None
    else if raw[|raw| - 1].thought.id == id then Some(raw[|raw| - 1])
    else LastHit(raw[..|raw| - 1], id)
  }

  function Higher(a: real, b: real): real {
    if a >= b then a else b
  }

  /** The hit that represents `thought` on behalf of `template`, made from its own raw hit when it has one. */
  function StandIn(raw: seq<Hit>, template: Hit, thought: Thought, bump: real): Hit {
    var own := LastHit(raw, thought.id);
    var base := if own.Some? then own.value else template;
    Hit(thought, Higher(base.total, template.total + bump), [template.thought.id])
  }

  function Naming(hit: Hit, id: nat): Hit {
    if id in hit.successorOf then hit else hit.(successorOf := hit.successorOf + [id])
  }

  /** Put `thought` into the output for `template`; when it is there already, it only names one more. */
  function Place(raw: seq<Hit>, out: seq<Hit>, template: Hit, thought: Thought, bump: real): seq<Hit> {
    var slot := Slot(out, thought.id);
    if slot < |out| then out[slot := Naming(out[slot], template.thought.id)]
    else out + [StandIn(raw, template, thought, bump)]
  }

  /** The allowed live successor of a thought. */
  function AllowedSuccessor(v: View, allowed: Allowed, id: nat): Option<Thought>
    requires v.chain.ctx.Valid()
  {
    var found := LiveSuccessorOf(v, id);
    if found.Some? && allowed(found.value) then found else None
  }

  function AllowedContester(v: View, allowed: Allowed, id: nat): Option<Thought>
    requires v.chain.ctx.Valid()
  {
    var found := LiveContester(v, id);
    if found.Some? && allowed(found.value) then found else None
  }

  /** What one raw hit adds to the output. */
  function Step(v: View, raw: seq<Hit>, allowed: Allowed, out: seq<Hit>, hit: Hit): seq<Hit>
    requires v.chain.ctx.Valid()
  {
    var id := hit.thought.id;
    if Has(out, id) then out
    else if v.Invalidated(id) then
      match AllowedSuccessor(v, allowed, id)
      case None => out
      case Some(successor) => Place(raw, out, hit, successor, 0.0)
    else
      (match AllowedContester(v, allowed, id)
       case None => out
       case Some(contester) => Place(raw, out, hit, contester, CONTEST_SCORE_BUMP)) + [hit]
  }

  /** The output after the first `k` raw hits. */
  function After(v: View, raw: seq<Hit>, allowed: Allowed, k: nat): seq<Hit>
    requires v.chain.ctx.Valid() && k <= |raw|
  {
    if k == 0 then [] else Step(v, raw, allowed, After(v, raw, allowed, k - 1), raw[k - 1])
  }

  function Redirected(v: View, raw: seq<Hit>, allowed: Allowed): seq<Hit>
    requires v.chain.ctx.Valid()
  {
    After(v, raw, allowed, |raw|)
  }

  // ----- A replacement is another thought

  lemma {:induction false} SourcesDiffer(v: View, edges: seq<Edge>, target: nat, strong: bool)
    requires v.chain.ctx.Valid() && forall k :: 0 <= k < |edges| ==> edges[k].sourceId != target
    ensures forall t :: t in v.SourcesOf(edges, target, strong) ==> t.id != target
  {
    if edges != [] {
      SourcesDiffer(v, edges[..|edges| - 1], target, strong);
    }
  }

  lemma {:induction false} FilterKeeps(v: View, edges: seq<Edge>)
    ensures forall e :: e in v.Filter(edges) <==> e in edges && v.Counts(e)
  {
    if edges != [] {
      FilterKeeps(v, edges[..|edges| - 1]);
      assert edges == edges[..|edges| - 1] + [edges[|edges| - 1]];
    }
  }

  lemma ContesterDiffers(v: View, id: nat)
    requires v.chain.Valid()
    ensures var found := LiveContester(v, id); found.Some? ==> found.value.id != id && !v.Invalidated(found.value.id)
  {
    hide View.Invalidated, View.SourcesOf, View.Filter;
    var edges := v.VisibleEdges(id);
    FilterKeeps(v, EdgesOf(v.chain.byTarget, id));
    forall k | 0 <= k < |edges|
      ensures edges[k].sourceId != id
    {
      assert edges[k] in edges && edges[k] in v.chain.byTarget[id];
    }
    SourcesDiffer(v, edges, id, false);
    NewestLiveIs(v, v.Sources(id, false));
  }

  lemma PlaceHas(raw: seq<Hit>, out: seq<Hit>, template: Hit, thought: Thought, bump: real, id: nat)
    ensures Has(Place(raw, out, template, thought, bump), id) <==> Has(out, id) || id == thought.id
  {
    var slot, after := Slot(out, thought.id), Place(raw, out, template, thought, bump);
    hide Slot;
    assert forall i :: 0 <= i < |out| ==> after[i].thought.id == out[i].thought.id;
    if slot == |out| {
      assert after[|out|].thought.id == thought.id;
    }
  }

  /** Placing a live hit's contester does not place the hit. */
  lemma NotPlacedBy(v: View, raw: seq<Hit>, allowed: Allowed, out: seq<Hit>, hit: Hit)
    requires v.chain.Valid() && !Has(out, hit.thought.id) && AllowedContester(v, allowed, hit.thought.id).Some?
    ensures !Has(Place(raw, out, hit, AllowedContester(v, allowed, hit.thought.id).value, CONTEST_SCORE_BUMP),
            hit.thought.id)
  {
    hide Place, LiveContester;
    ContesterDiffers(v, hit.thought.id);
    PlaceHas(raw, out, hit, AllowedContester(v, allowed, hit.thought.id).value, CONTEST_SCORE_BUMP, hit.thought.id);
  }

  // ----- The pass over the hits

  /** `placed` knows the slot of every hit of the output, and nothing else. */
  ghost predicate Placed(out: seq<Hit>, placed: map<nat, nat>) {
    forall id :: if id in placed then placed[id] == Slot(out, id) < |out| else !Has(out, id)
  }

  ghost predicate LastHits(raw: seq<Hit>, byId: map<nat, nat>) {
    forall id ::
      if id in byId then byId[id] < |raw| && LastHit(raw, id) == Some(raw[byId[id]]) else LastHit(raw, id) == None
  }

  lemma AppendPlaced(out: seq<Hit>, placed: map<nat, nat>, hit: Hit)
    requires Placed(out, placed) && !Has(out, hit.thought.id)
    ensures Placed(out + [hit], placed[hit.thought.id := |out|])
  {
    hide Slot;
    var more := out + [hit];
    assert more[|out|] == hit && forall i :: 0 <= i < |out| ==> more[i] == out[i];
  }

  lemma UpdatePlaced(out: seq<Hit>, placed: map<nat, nat>, slot: nat, hit: Hit)
    requires Placed(out, placed) && slot < |out| && hit.thought.id == out[slot].thought.id
    ensures Placed(out[slot := hit], placed)
  {
    hide Slot;
    var after := out[slot := hit];
    assert forall i :: 0 <= i < |out| ==> after[i].thought.id == out[i].thought.id;
  }

  method PlaceHit(raw: seq<Hit>, byId: map<nat, nat>, out: seq<Hit>, placed: map<nat, nat>, template: Hit,
                  thought: Thought, bump: real)
    returns (out': seq<Hit>, placed': map<nat, nat>)
    requires Placed(out, placed) && LastHits(raw, byId)
    ensures out' == Place(raw, out, template, thought, bump) && Placed(out', placed')
  {
    out', placed' := out, placed;
    if thought.id in placed {
      var slot := placed[thought.id];
      var ids := out[slot].successorOf;
      if template.thought.id !in ids {
        out' := out[slot := out[slot].(successorOf := ids + [template.thought.id])];
        UpdatePlaced(out, placed, slot, out'[slot]);
      }
      return;
    }
    var hit := if thought.id in byId then raw[byId[thought.id]] else template;
    hit := hit.(thought := thought, total := Higher(hit.total, template.total + bump),
      successorOf := [template.thought.id]);
    placed' := placed[thought.id := |out|];
    out' := out + [hit];
    AppendPlaced(out, placed, hit);
  }

  method PositionsById(raw: seq<Hit>) returns (byId: map<nat, nat>)
    ensures LastHits(raw, byId)
  {
    byId := map[];
    for k := 0 to |raw|
      invariant LastHits(raw[..k], byId)
    {
      assert raw[..k + 1][..k] == raw[..k];
      byId := byId[raw[k].thought.id := k];
    }
    assert raw[..|raw|] == raw;
  }

  method RedirectHits(v: View, raw: seq<Hit>, allowed: Allowed) returns (out: seq<Hit>)
    requires v.chain.Valid()
    ensures out == Redirected(v, raw, allowed)
  {
    hide Slot, LastHit, Place, LiveSuccessorOf, LiveContester, View.Invalidated, Placed;
    var byId := PositionsById(raw);
    var placed: map<nat, nat> := map[];
    out := [];
    NothingPlaced();
    for k := 0 to |raw|
      invariant out == After(v, raw, allowed, k) && Placed(out, placed)
    {
      var hit := raw[k];
      var id := hit.thought.id;
      PlacedIsHas(out, placed, id);
      if id in placed {
        continue;
      }
      if v.Invalidated(id) {
        var successor := LiveSuccessor.Follow(v, id);
        if successor.Some? && allowed(successor.value) {
          out, placed := PlaceHit(raw, byId, out, placed, hit, successor.value, 0.0);
        }
        continue;
      }
      var contester := LiveContester(v, id);
      if contester.Some? && allowed(contester.value) {
        out, placed := PlaceHit(raw, byId, out, placed, hit, contester.value, CONTEST_SCORE_BUMP);
      }
      if contester.Some? && allowed(contester.value) {
        NotPlacedBy(v, raw, allowed, After(v, raw, allowed, k), hit);
      }
      AppendPlaced(out, placed, hit);
      placed := placed[id := |out|];
      out := out + [hit];
    }
  }

  lemma NothingPlaced()
    ensures Placed([], map[])
  {
  }

  lemma PlacedIsHas(out: seq<Hit>, placed: map<nat, nat>, id: nat)
    requires Placed(out, placed)
    ensures id in placed <==> Has(out, id)
  {
  }
}
