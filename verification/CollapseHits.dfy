/** Folding near-duplicate hits into the higher-ranked hit they repeat. */
module CollapseHits {
  import opened Wrappers
  import opened Similarity
  import opened SortedLists
  import opened PairwiseScan
  import opened PrefixIndex

  /** A ranked hit: its thought, that thought's normalized tokens, and the thoughts already folded into it. */
  datatype Hit = Hit(id: nat, tokens: seq<Token>, collapsed: seq<nat>)

  predicate NearHits(a: Hit, b: Hit, threshold: real) {
    Jaccard(Elems(a.tokens), Elems(b.tokens)) >= threshold
  }

  function Tokens(hits: seq<Hit>): set<Token> {
    set i, t | 0 <= i < |hits| && t in hits[i].tokens :: t
  }

  // ----- Interning

  ghost predicate Injective(ids: map<Token, nat>) {
    forall s, t :: s in ids && t in ids && ids[s] == ids[t] ==> s == t
  }

  /** Token ids are handed out in order of first appearance. */
  ghost predicate Interning(ids: map<Token, nat>) {
    Injective(ids) && forall t :: t in ids ==> ids[t] < |ids|
  }

  ghost function Image(ids: map<Token, nat>, tokens: set<Token>): set<nat>
    requires tokens <= ids.Keys
  {
    set t | t in tokens :: ids[t]
  }

  /** The id of `token`: the one it has, or the next free one. */
  function Intern(ids: map<Token, nat>, token: Token): map<Token, nat> {
    if token in ids then ids else ids[token := TruncateU32(|ids|)]
  }

  lemma InternKeepsIds(ids: map<Token, nat>, token: Token)
    requires Interning(ids) && |ids.Keys| < U32_LIMIT
    ensures Interning(Intern(ids, token)) && Intern(ids, token).Keys == ids.Keys + {token}
    ensures Extends(Intern(ids, token), ids)
  {
    if token in ids {
      assert ids.Keys == ids.Keys + {token};
    } else {
      hide Interning;
    }
  }

  /** Every id already given is kept. */
  ghost predicate Extends(after: map<Token, nat>, before: map<Token, nat>) {
    before.Keys <= after.Keys && forall t :: t in before ==> after[t] == before[t]
  }

  /** `list` spells `tokens` in ids. */
  ghost predicate Spells(list: seq<nat>, tokens: seq<Token>, ids: map<Token, nat>) {
    |list| == |tokens| && forall k :: 0 <= k < |tokens| ==> tokens[k] in ids && list[k] == ids[tokens[k]]
  }

  /** Ids for one hit's tokens; `all` bounds the tokens that ever get an id. */
  method InternTokens(tokens: seq<Token>, before: map<Token, nat>, ghost all: set<Token>)
    returns (list: seq<nat>, ids: map<Token, nat>)
    requires Interning(before) && before.Keys <= all && Elems(tokens) <= all && |all| < U32_LIMIT
    ensures Interning(ids) && Extends(ids, before) && ids.Keys == before.Keys + Elems(tokens)
    ensures Spells(list, tokens, ids)
  {
    hide Interning, Elems, Intern, Spells;
    list, ids := [], before;
    InternStart(before, tokens);
    for k := 0 to |tokens|
      invariant InternedSoFar(list, before, ids, tokens, k)
    {
      InternStep(list, before, ids, tokens, k, all);
      ids := Intern(ids, tokens[k]);
      list := list + [ids[tokens[k]]];
    }
    assert tokens[..|tokens|] == tokens;
  }

  ghost predicate InternedSoFar(list: seq<nat>, before: map<Token, nat>, ids: map<Token, nat>, tokens: seq<Token>,
                                k: nat)
    requires k <= |tokens|
  {
    && Interning(ids) && ids.Keys == before.Keys + Elems(tokens[..k])
    && Extends(ids, before) && Spells(list, tokens[..k], ids)
  }

  lemma InternStart(before: map<Token, nat>, tokens: seq<Token>)
    requires Interning(before)
    ensures InternedSoFar([], before, before, tokens, 0)
  {
  }

  lemma InternStep(list: seq<nat>, before: map<Token, nat>, ids: map<Token, nat>, tokens: seq<Token>, k: nat,
                   all: set<Token>)
    requires k < |tokens| && before.Keys <= all && Elems(tokens) <= all && |all| < U32_LIMIT
    requires InternedSoFar(list, before, ids, tokens, k)
    ensures var after := Intern(ids, tokens[k]);
            tokens[k] in after && InternedSoFar(list + [after[tokens[k]]], before, after, tokens, k + 1)
  {
    hide Interning, Elems, Intern, Spells;
    InternKeys(before, ids, tokens, k, all);
    assert tokens[k] in Intern(ids, tokens[k]).Keys by { ElemsStep(tokens, k); }
    SpellsMore(list, tokens, k, ids, Intern(ids, tokens[k]));
  }

  lemma InternKeys(before: map<Token, nat>, ids: map<Token, nat>, tokens: seq<Token>, k: nat,
                   all: set<Token>)
    requires k < |tokens| && before.Keys <= all && Elems(tokens) <= all && |all| < U32_LIMIT
    requires Interning(ids) && ids.Keys == before.Keys + Elems(tokens[..k])
    ensures var after := Intern(ids, tokens[k]);
            Interning(after) && Extends(after, ids) && after.Keys == before.Keys + Elems(tokens[..k + 1])
  {
    hide *;
    ElemsStep(tokens, k);
    BelowLimit(ids.Keys, all);
    InternKeepsIds(ids, tokens[k]);
    assert Elems(tokens[..k]) <= all;
  }

  lemma BelowLimit(keys: set<Token>, all: set<Token>)
    requires keys <= all && |all| < U32_LIMIT
    ensures |keys| < U32_LIMIT
  {
    SubsetSize(keys, all);
  }

  lemma SpellsMore(list: seq<nat>, tokens: seq<Token>, k: nat, before: map<Token, nat>, after: map<Token, nat>)
    requires k < |tokens| && Spells(list, tokens[..k], before)
    requires Extends(after, before) && tokens[k] in after
    ensures Spells(list + [after[tokens[k]]], tokens[..k + 1], after)
  {
    assert tokens[..k + 1] == tokens[..k] + [tokens[k]];
  }

  lemma ElemsStep(tokens: seq<Token>, k: nat)
    requires k <= |tokens|
    ensures Elems(tokens[..k]) <= Elems(tokens)
    ensures k == 0 ==> Elems(tokens[..k]) == {}
    ensures k < |tokens| ==> Elems(tokens[..k + 1]) == Elems(tokens[..k]) + {tokens[k]}
  {
    if k < |tokens| {
      assert tokens[..k + 1] == tokens[..k] + [tokens[k]];
    }
  }

  /** The set of ids a token set is interned as. */
  ghost predicate Interned(hits: seq<Hit>, sets: seq<seq<nat>>, ids: map<Token, nat>) {
    && |sets| == |hits|
    && forall i :: 0 <= i < |hits| ==>
         && Elems(hits[i].tokens) <= ids.Keys
         && Increasing(sets[i])
         && Elems(sets[i]) == Image(ids, Elems(hits[i].tokens))
  }

  method InternHits(hits: seq<Hit>) returns (sets: seq<seq<nat>>, ids: map<Token, nat>)
    requires |Tokens(hits)| < U32_LIMIT
    ensures Interning(ids) && Interned(hits, sets, ids)
  {
    hide Interning, Elems, Tokens, Extends, Spells;
    sets, ids := [], map[];
    assert Interning(ids) by { NothingInterned(); }
    for i := 0 to |hits|
      invariant Interning(ids) && ids.Keys <= Tokens(hits)
      invariant Interned(hits[..i], sets, ids)
    {
      ghost var before := ids;
      TokensOf(hits, i);
      var list;
      list, ids := InternTokens(hits[i].tokens, ids, Tokens(hits));
      InternedGrows(hits, i, sets, before, list, ids);
      sets := sets + [SortDedup(list)];
    }
    assert hits[..|hits|] == hits;
  }

  lemma NothingInterned()
    ensures Interning(map[])
  {
  }

  lemma TokensOf(hits: seq<Hit>, i: nat)
    requires i < |hits|
    ensures Elems(hits[i].tokens) <= Tokens(hits)
  {
  }

  lemma SpellsImage(tokens: seq<Token>, list: seq<nat>, ids: map<Token, nat>)
    requires Spells(list, tokens, ids)
    ensures Elems(tokens) <= ids.Keys && Elems(list) == Image(ids, Elems(tokens))
  {
    forall x | x in Image(ids, Elems(tokens))
      ensures x in list
    {
      var t :| t in tokens && ids[t] == x;
      var k :| 0 <= k < |tokens| && tokens[k] == t;
      assert list[k] == x;
    }
  }

  lemma InternedGrows(hits: seq<Hit>, i: nat, sets: seq<seq<nat>>, before: map<Token, nat>,
                      list: seq<nat>, after: map<Token, nat>)
    requires i < |hits| && Interned(hits[..i], sets, before)
    requires Extends(after, before) && Spells(list, hits[i].tokens, after)
    ensures Interned(hits[..i + 1], sets + [SortDedup(list)], after)
  {
    SpellsImage(hits[i].tokens, list, after);
    SortDedupIncreasing(list);
    forall k | 0 <= k < i
      ensures Image(before, Elems(hits[k].tokens)) == Image(after, Elems(hits[k].tokens))
    {
      assert hits[..i][k] == hits[k];
    }
  }

  lemma {:induction false} ImageSize(ids: map<Token, nat>, tokens: set<Token>)
    requires Injective(ids) && tokens <= ids.Keys
    ensures |Image(ids, tokens)| == |tokens|
  {
    if tokens == {} {
    } else {
      var t :| t in tokens;
      ImageSize(ids, tokens - {t});
      assert Image(ids, tokens) == Image(ids, tokens - {t}) + {ids[t]};
    }
  }

  /** Interning changes no similarity. */
  lemma InterningKeepsJaccard(ids: map<Token, nat>, a: set<Token>, b: set<Token>)
    requires Injective(ids) && a <= ids.Keys && b <= ids.Keys
    ensures Jaccard(Image(ids, a), Image(ids, b)) == Jaccard(a, b)
  {
    ImageSize(ids, a + b);
    ImageSize(ids, a * b);
    assert Image(ids, a) + Image(ids, b) == Image(ids, a + b);
    assert Image(ids, a) * Image(ids, b) == Image(ids, a * b);
  }

  // ----- What collapsing keeps

  predicate Ascending(survivors: seq<nat>) {
    forall k, l :: 0 <= k < l < |survivors| ==> survivors[k] < survivors[l]
  }

  /** Exactly the hits without a slot survive. */
  ghost predicate Survive(survivors: seq<nat>, slots: seq<Option<nat>>) {
    && Indices(survivors, |slots|) && Ascending(survivors)
    && forall i :: 0 <= i < |slots| ==> (slots[i].None? <==> i in survivors)
  }

  /** Hit `i` repeats the survivor in `slot`, which ranks higher, and no survivor before it. */
  ghost predicate FirstRepeat(hits: seq<Hit>, threshold: real, survivors: seq<nat>, i: nat, slot: nat)
    requires i < |hits| && Indices(survivors, |hits|)
  {
    && slot < |survivors| && survivors[slot] < i
    && NearHits(hits[survivors[slot]], hits[i], threshold)
    && forall k :: 0 <= k < slot ==> !NearHits(hits[survivors[k]], hits[i], threshold)
  }

  /** No two survivors are near-duplicates. */
  ghost predicate Apart(hits: seq<Hit>, threshold: real, survivors: seq<nat>)
    requires Indices(survivors, |hits|)
  {
    forall k, l :: 0 <= k < l < |survivors| ==> !NearHits(hits[survivors[k]], hits[survivors[l]], threshold)
  }

  /** Of the hits given a slot so far: which survive, and for every other one the first
      higher-ranked survivor it repeats. */
  ghost predicate Partition(hits: seq<Hit>, threshold: real, survivors: seq<nat>, slots: seq<Option<nat>>) {
    && |slots| <= |hits| && Survive(survivors, slots) && Apart(hits, threshold, survivors)
    && forall i :: 0 <= i < |slots| && slots[i].Some? ==>
                     FirstRepeat(hits, threshold, survivors, i, slots[i].value)
  }

  /** Thoughts of the hits among the first `n` that are folded into slot `k`, in rank order. */
  function FoldedInto(hits: seq<Hit>, slots: seq<Option<nat>>, k: nat, n: nat): seq<nat>
    requires n <= |hits| && n <= |slots|
  {
    if n == 0 then []
    else FoldedInto(hits, slots, k, n - 1) + if slots[n - 1] == Some(k) then [hits[n - 1].id] else []
  }

  /** The thoughts folded into a slot are those of the hits with that slot, in rank order. */
  lemma {:induction false} FoldedAre(hits: seq<Hit>, slots: seq<Option<nat>>, k: nat, n: nat) returns (ranks: seq<nat>)
    requires n <= |hits| && n <= |slots|
    ensures Increasing(ranks) && forall i: nat :: i in ranks <==> i < n && slots[i] == Some(k)
    ensures |ranks| == |FoldedInto(hits, slots, k, n)|
    ensures forall j :: 0 <= j < |ranks| ==>
              ranks[j] < |hits| && FoldedInto(hits, slots, k, n)[j] == hits[ranks[j]].id
  {
    ranks := [];
    if n > 0 {
      ranks := FoldedAre(hits, slots, k, n - 1);
      if slots[n - 1] == Some(k) {
        assert forall j :: 0 <= j < |ranks| ==> ranks[j] in ranks;
        ranks := ranks + [n - 1];
      }
    }
  }

  /** A surviving hit with the thoughts folded into its slot `k` so far. */
  function Kept(hits: seq<Hit>, survivors: seq<nat>, slots: seq<Option<nat>>, k: nat, n: nat): Hit
    requires n <= |hits| == |slots| && k < |survivors| && survivors[k] < |hits|
  {
    var hit := hits[survivors[k]];
    hit.(collapsed := hit.collapsed + FoldedInto(hits, slots, k, n))
  }

  /** The survivors in rank order, each with the thoughts folded into it. */
  ghost predicate KeptHits(hits: seq<Hit>, survivors: seq<nat>, slots: seq<Option<nat>>, kept: seq<Hit>) {
    && |slots| == |hits| && Indices(survivors, |hits|) && |kept| == |survivors|
    && forall k :: 0 <= k < |kept| ==> kept[k] == Kept(hits, survivors, slots, k, |hits|)
  }

  /** Every thought a list of hits carries: its hits and everything folded into them. */
  function Carried(hits: seq<Hit>): multiset<nat> {
    if hits == [] then multiset{}
    else Carried(hits[..|hits| - 1]) + multiset{hits[|hits| - 1].id} + multiset(hits[|hits| - 1].collapsed)
  }

  /** Thoughts that were folded into a hit which is then itself folded away: the
      survivor names the hit, not what the hit carried. */
  function Lost(hits: seq<Hit>, slots: seq<Option<nat>>, n: nat): multiset<nat>
    requires n <= |hits| && n <= |slots|
  {
    if n == 0 then multiset{}
    else Lost(hits, slots, n - 1) + if slots[n - 1].Some? then multiset(hits[n - 1].collapsed) else multiset{}
  }

  /** Nothing is lost exactly when every hit that is folded away carried nothing. */
  lemma {:induction false} NothingLost(hits: seq<Hit>, slots: seq<Option<nat>>, n: nat)
    requires n <= |hits| && n <= |slots|
    ensures Lost(hits, slots, n) == multiset{} <==>
            forall i :: 0 <= i < n && slots[i].Some? ==> hits[i].collapsed == []
  {
    if n > 0 {
      NothingLost(hits, slots, n - 1);
      assert multiset(hits[n - 1].collapsed) == multiset{} <==> hits[n - 1].collapsed == [] by {
        assert |multiset(hits[n - 1].collapsed)| == |hits[n - 1].collapsed|;
      }
      if slots[n - 1].Some? && hits[n - 1].collapsed != [] {
        assert hits[n - 1].collapsed[0] in Lost(hits, slots, n);
      }
    }
  }

  lemma CarriedMore(hits: seq<Hit>, hit: Hit)
    ensures Carried(hits + [hit]) == Carried(hits) + multiset{hit.id} + multiset(hit.collapsed)
  {
    assert (hits + [hit])[..|hits|] == hits;
  }

  lemma CarriedLast(hits: seq<Hit>)
    requires hits != []
    ensures var n := |hits| - 1;
            Carried(hits) == Carried(hits[..n]) + multiset{hits[n].id} + multiset(hits[n].collapsed)
  {
  }

  /** Folding one more thought into a slot carries exactly that thought more. */
  lemma {:induction false} CarriedFold(hits: seq<Hit>, slot: nat, id: nat, folded: Hit)
    requires slot < |hits| && folded == hits[slot].(collapsed := hits[slot].collapsed + [id])
    ensures Carried(hits[slot := folded]) == Carried(hits) + multiset{id}
  {
    hide Carried;
    var last, after := |hits| - 1, hits[slot := folded];
    CarriedLast(hits);
    CarriedLast(after);
    if slot == last {
      assert after[..last] == hits[..last];
      assert multiset(folded.collapsed) == multiset(hits[slot].collapsed) + multiset{id};
    } else {
      CarriedFold(hits[..last], slot, id, folded);
      assert after[..last] == hits[..last][slot := folded];
    }
  }

  ghost predicate Agree(hits: seq<Hit>, threshold: real, sets: seq<seq<nat>>) {
    && |sets| == |hits|
    && forall i, j :: 0 <= i < |hits| && 0 <= j < |hits| ==>
                        (Near(sets[i], sets[j], threshold) <==> NearHits(hits[i], hits[j], threshold))
  }

  lemma InternedAgree(hits: seq<Hit>, threshold: real, sets: seq<seq<nat>>, ids: map<Token, nat>)
    requires Interning(ids) && Interned(hits, sets, ids)
    ensures Agree(hits, threshold, sets)
  {
    forall i, j | 0 <= i < |hits| && 0 <= j < |hits|
      ensures Near(sets[i], sets[j], threshold) <==> NearHits(hits[i], hits[j], threshold)
    {
      InterningKeepsJaccard(ids, Elems(hits[i].tokens), Elems(hits[j].tokens));
    }
  }

  lemma InternedInRange(hits: seq<Hit>, sets: seq<seq<nat>>, ids: map<Token, nat>)
    requires Interning(ids) && Interned(hits, sets, ids)
    ensures TokenSets(sets, |ids|)
  {
    forall i, k | 0 <= i < |sets| && 0 <= k < |sets[i]|
      ensures sets[i][k] < |ids|
    {
      assert sets[i][k] in Elems(sets[i]);
    }
  }

  /** The pairwise scan splits the hits into survivors and duplicates of survivors. */
  lemma {:induction false} ScanPartitions(hits: seq<Hit>, threshold: real, sets: seq<seq<nat>>, n: nat)
    requires n <= |sets| && Agree(hits, threshold, sets)
    ensures var scan := ScanOf(sets, threshold, n); Partition(hits, threshold, scan.survivors, scan.slots)
  {
    hide Near, NearHits, Partition;
    if n == 0 {
      assert Partition(hits, threshold, [], []) by { PartitionStart(hits, threshold); }
    } else {
      ScanPartitions(hits, threshold, sets, n - 1);
      var before := ScanOf(sets, threshold, n - 1);
      var slot := FirstMatch(sets, before.survivors, sets[n - 1], threshold, 0);
      assert Indices(before.survivors, |sets|);
      PartitionStep(hits, threshold, before.survivors, before.slots, slot);
      ScanStep(sets, threshold, n - 1);
    }
  }

  lemma PartitionStart(hits: seq<Hit>, threshold: real)
    ensures Partition(hits, threshold, [], [])
  {
  }

  lemma PartitionStep(hits: seq<Hit>, threshold: real, survivors: seq<nat>, slots: seq<Option<nat>>, slot: Option<nat>)
    requires Partition(hits, threshold, survivors, slots) && |slots| < |hits|
    requires slot.Some? ==> slot.value < |survivors| && NearHits(hits[survivors[slot.value]], hits[|slots|], threshold)
    requires forall k :: 0 <= k < (if slot.Some? then slot.value else |survivors|) ==>
                           !NearHits(hits[survivors[k]], hits[|slots|], threshold)
    ensures Partition(hits, threshold, if slot.None? then survivors + [|slots|] else survivors, slots + [slot])
  {
    hide NearHits;
    var n := |slots|;
    if slot.None? {
      assert forall i :: 0 <= i < n && slots[i].Some? ==>
                           FirstRepeat(hits, threshold, survivors + [n], i, slots[i].value);
      assert forall i :: 0 <= i < n ==> (i in survivors + [n] <==> i in survivors);
    } else {
      assert FirstRepeat(hits, threshold, survivors, n, slot.value);
      assert n !in survivors;
    }
  }

  /** Hits as a ranking returns them: nothing is folded into any of them yet. */
  ghost predicate Fresh(hits: seq<Hit>) {
    forall i :: 0 <= i < |hits| ==> hits[i].collapsed == []
  }

  lemma FreshLoseNothing(hits: seq<Hit>, slots: seq<Option<nat>>)
    requires Fresh(hits) && |slots| == |hits|
    ensures Lost(hits, slots, |hits|) == multiset{}
  {
    NothingLost(hits, slots, |hits|);
  }

  /** `kept` is what collapsing leaves for this choice of survivors and slots, and carries every thought
      that came in but those listed on hits that were dropped; from fresh hits, exactly those that came in. */
  ghost predicate CollapsedTo(hits: seq<Hit>, threshold: real, survivors: seq<nat>, slots: seq<Option<nat>>,
                              kept: seq<Hit>) {
    && |slots| == |hits| && Partition(hits, threshold, survivors, slots)
    && KeptHits(hits, survivors, slots, kept)
    && Carried(kept) + Lost(hits, slots, |hits|) == Carried(hits)
    && (Fresh(hits) ==> Carried(kept) == Carried(hits))
  }

  method CollapseDuplicateHits(hits: seq<Hit>, threshold: real) returns (kept: seq<Hit>)
    requires |hits| < U32_LIMIT && |Tokens(hits)| < U32_LIMIT
    ensures exists survivors, slots :: CollapsedTo(hits, threshold, survivors, slots, kept)
  {
    hide Partition, KeptHits, Lost, Carried;
    var sets, ids := InternHits(hits);
    var slots;
    if threshold > 0.0 {
      InternedInRange(hits, sets, ids);
      slots := FilteredSlots(sets, |ids|, threshold);
    } else {
      slots := NaiveSlots(sets, threshold);
    }
    ghost var survivors := ScanOf(sets, threshold, |sets|).survivors;
    InternedAgree(hits, threshold, sets, ids);
    ScanPartitions(hits, threshold, sets, |sets|);
    PartitionFacts(hits, threshold, survivors, slots);
    kept := FoldHits(hits, slots, survivors);
    if Fresh(hits) {
      FreshLoseNothing(hits, slots);
    }
    assert CollapsedTo(hits, threshold, survivors, slots, kept);
  }

  lemma PartitionFacts(hits: seq<Hit>, threshold: real, survivors: seq<nat>, slots: seq<Option<nat>>)
    requires Partition(hits, threshold, survivors, slots) && |slots| == |hits|
    ensures Indices(survivors, |hits|) && Ascending(survivors)
    ensures forall i :: 0 <= i < |hits| ==> (slots[i].None? <==> i in survivors)
    ensures forall i :: 0 <= i < |hits| && slots[i].Some? ==>
              slots[i].value < |survivors| && survivors[slots[i].value] < i
  {
  }

  method FoldHits(hits: seq<Hit>, slots: seq<Option<nat>>, ghost survivors: seq<nat>) returns (kept: seq<Hit>)
    requires |slots| == |hits| && Indices(survivors, |hits|) && Ascending(survivors)
    requires forall i :: 0 <= i < |hits| ==> (slots[i].None? <==> i in survivors)
    requires forall i :: 0 <= i < |hits| && slots[i].Some? ==>
               slots[i].value < |survivors| && survivors[slots[i].value] < i
    ensures KeptHits(hits, survivors, slots, kept)
    ensures Carried(kept) + Lost(hits, slots, |hits|) == Carried(hits)
  {
    hide Ascending, FoldedInto, Carried, Lost;
    assert Carried([]) + Lost(hits, slots, 0) == Carried(hits[..0]) by { NothingCarried(hits, slots); }
    kept := [];
    for i := 0 to |hits|
      invariant |kept| <= |survivors|
      invariant forall k :: 0 <= k < |survivors| ==> (survivors[k] < i <==> k < |kept|)
      invariant forall k :: 0 <= k < |kept| ==> kept[k] == Kept(hits, survivors, slots, k, i)
      invariant Carried(kept) + Lost(hits, slots, i) == Carried(hits[..i])
    {
      FoldStep(hits, slots, i);
      NextSurvivor(survivors, i, |kept|);
      if slots[i].Some? {
        var slot := slots[i].value;
        assert survivors[slot] < i;
        CarriedDrop(hits, slots, i, kept, slot);
        kept := kept[slot := kept[slot].(collapsed := kept[slot].collapsed + [hits[i].id])];
      } else {
        NothingFoldedYet(hits, survivors, slots, |kept|, i + 1);
        CarriedKeep(hits, slots, i, kept);
        kept := kept + [hits[i]];
      }
    }
    assert hits[..|hits|] == hits;
    assert |kept| == |survivors|;
  }

  lemma NothingCarried(hits: seq<Hit>, slots: seq<Option<nat>>)
    ensures Carried([]) + Lost(hits, slots, 0) == Carried(hits[..0])
  {
  }

  lemma CarriedKeep(hits: seq<Hit>, slots: seq<Option<nat>>, i: nat, kept: seq<Hit>)
    requires i < |hits| == |slots| && slots[i].None?
    requires Carried(kept) + Lost(hits, slots, i) == Carried(hits[..i])
    ensures Carried(kept + [hits[i]]) + Lost(hits, slots, i + 1) == Carried(hits[..i + 1])
  {
    hide Carried;
    assert hits[..i + 1] == hits[..i] + [hits[i]];
    CarriedMore(hits[..i], hits[i]);
    CarriedMore(kept, hits[i]);
  }

  lemma CarriedDrop(hits: seq<Hit>, slots: seq<Option<nat>>, i: nat, kept: seq<Hit>, slot: nat)
    requires i < |hits| == |slots| && slots[i] == Some(slot) && slot < |kept|
    requires Carried(kept) + Lost(hits, slots, i) == Carried(hits[..i])
    ensures Carried(kept[slot := kept[slot].(collapsed := kept[slot].collapsed + [hits[i].id])])
            + Lost(hits, slots, i + 1) == Carried(hits[..i + 1])
  {
    hide Carried;
    assert hits[..i + 1] == hits[..i] + [hits[i]];
    CarriedMore(hits[..i], hits[i]);
    CarriedFold(kept, slot, hits[i].id, kept[slot].(collapsed := kept[slot].collapsed + [hits[i].id]));
  }

  lemma FoldStep(hits: seq<Hit>, slots: seq<Option<nat>>, i: nat)
    requires i < |hits| == |slots|
    ensures forall k: nat :: FoldedInto(hits, slots, k, i + 1) ==
                        FoldedInto(hits, slots, k, i) + if slots[i] == Some(k) then [hits[i].id] else []
  {
  }

  /** Walking the hits in rank order meets the survivors in slot order. */
  lemma NextSurvivor(survivors: seq<nat>, i: nat, next: nat)
    requires Ascending(survivors) && next <= |survivors|
    requires forall k :: 0 <= k < |survivors| ==> (survivors[k] < i <==> k < next)
    ensures i in survivors <==> next < |survivors| && survivors[next] == i
    ensures forall k :: 0 <= k < |survivors| ==>
              (survivors[k] < i + 1 <==> k < (if i in survivors then next + 1 else next))
  {
  }

  /** Nothing is folded into a survivor before its own rank. */
  lemma {:induction false} NothingFoldedYet(hits: seq<Hit>, survivors: seq<nat>, slots: seq<Option<nat>>, k: nat,
                                            n: nat)
    requires n <= |hits| == |slots| && k < |survivors| && n <= survivors[k] + 1
    requires forall i :: 0 <= i < n && slots[i] == Some(k) ==> survivors[k] < i
    ensures FoldedInto(hits, slots, k, n) == []
  {
    if n > 0 {
      NothingFoldedYet(hits, survivors, slots, k, n - 1);
    }
  }
}
