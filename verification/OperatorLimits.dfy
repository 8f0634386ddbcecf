/** Exactly when a command, or a run of them, can end the operator's control, and what repeating a mode change does. */
module OperatorLimits {
  import opened Wrappers
  import opened Text
  import opened Access
  import opened PolicyReplay
  import opened Operator
  import opened OperatorSafety
  import opened OperatorShutOut

  // ----- Taking the operator's place

  /** `spec` has exactly the operator's agent and key id, and a usable key that is not the operator's. */
  ghost predicate OtherKeyForOperator(c: Crypto, operator: Identity, spec: KeySpec) {
    && spec.agentId == OPERATOR_AGENT_ID && spec.keyId == operator.keyId
    && SpecBytes(c, spec).Some? && SpecBytes(c, spec).value != operator.publicKey
  }

  /** Nothing is bound to the operator's id yet, or these very bytes are and were not revoked. */
  ghost predicate TakesUnderOperator(operator: Identity, registry: Registry, bytes: Bytes) {
    var known := Lookup(registry, OPERATOR_AGENT_ID, operator.keyId);
    known.None? || (known.value.bytes == bytes && !known.value.revoked)
  }

  /** An entry of the operator's identity with `bytes` reads back and has a leaf that is on no policy entry. */
  ghost predicate Distinguished(c: Crypto, operator: Identity, policy: Policy, bytes: Bytes) {
    && c.fromHex(c.toHex(bytes)) == Some(bytes)
    && forall k :: k in policy.keys ==> Leaf(c, k) != Some(c.leaf(OPERATOR_AGENT_ID, operator.keyId, bytes))
  }

  ghost predicate Usurps(c: Crypto, operator: Identity, state: State, spec: KeySpec, bytes: Bytes) {
    && OtherKeyForOperator(c, operator, spec) && SpecBytes(c, spec) == Some(bytes)
    && Distinguished(c, operator, state.policy, bytes)
    && UpsertKey(c, state.registry, spec).Ok?
  }

  /** No run of commands changes the policy of `state`, and none puts the operator in control. */
  ghost predicate OutForGood(c: Crypto, operator: Identity, state: State) {
    && !CanTakeBack(c, operator, state)
    && forall commands :: Run(c, operator, state, commands).policy == state.policy
  }

  /** A key the registry accepts under the operator's name means the registry is not sealed, and one command
      then takes the operator's place in the policy: for good, when the operator's signatures do not verify
      under that key. */
  lemma UnsealedCanBeLockedOut(c: Crypto, operator: Identity, state: State, spec: KeySpec, bytes: Bytes, hash: string)
    requires Genuine(c, operator) && Synced(c, state) && InControl(c, operator, state)
    requires Usurps(c, operator, state, spec, bytes)
    ensures !Sealed(operator, state.registry)
    ensures var (after, done) := ApplyOp(c, operator, state, AllowKey(spec), hash);
            && done == Ok(true) && !InControl(c, operator, after)
            && (Foreign(c, operator, bytes) ==> OutForGood(c, operator, after))
  {
    hide *;
    UsurpingAllow(c, operator, state, spec, bytes, hash);
    if Foreign(c, operator, bytes) {
      ForeignShutsOut(c, operator, ApplyOp(c, operator, state, AllowKey(spec), hash).0,
                      AllowedKeyOf(c, spec.agentId, spec.keyId, bytes), bytes);
    }
  }

  /** Allowing such a key makes it the policy's entry for the operator's identity. */
  lemma UsurpingAllow(c: Crypto, operator: Identity, state: State, spec: KeySpec, bytes: Bytes, hash: string)
    requires Genuine(c, operator) && Synced(c, state) && InControl(c, operator, state)
    requires Usurps(c, operator, state, spec, bytes)
    ensures !Sealed(operator, state.registry)
    ensures var (after, done) := ApplyOp(c, operator, state, AllowKey(spec), hash);
            var entry := AllowedKeyOf(c, spec.agentId, spec.keyId, bytes);
            && done == Ok(true) && !InControl(c, operator, after) && PublicKeyBytes(c, entry) == Some(bytes)
            && after.policy.seqNo.Some?
            && FindKey(after.policy.keys, OPERATOR_AGENT_ID, operator.keyId) == Some(entry)
  {
    var operatorKey, keys := OperatorKey(c, operator), state.policy.keys;
    var entry := AllowedKeyOf(c, spec.agentId, spec.keyId, bytes);
    var allowed := Without(keys, spec.agentId, spec.keyId) + [entry];
    var registry := UpsertKey(c, state.registry, spec).value;
    UsurperEntry(c, operator, state, spec, bytes);
    hide *;
    UsurpedIsRecordable(c, operator, state, entry);
    PolicyKeysDistinct(c, state);
    AllowNewKey(c, operator, state, spec, entry, hash);
    UsurpingCommit(c, operator, state.(registry := registry), allowed, hash);
    OperatorKeyFields(c, operator);
    WithoutKeeps(keys, spec.agentId, spec.keyId, operatorKey);
    ListedIsFound(c, operator, ApplyOp(c, operator, state, AllowKey(spec), hash).0, allowed, entry);
  }

  /** The policy's entry for the operator's identity is the one a commit listed. */
  lemma ListedIsFound(c: Crypto, operator: Identity, state: State, allowed: seq<AllowedKey>, entry: AllowedKey)
    requires Synced(c, state) && multiset(state.policy.keys) == multiset(allowed) && entry in allowed
    requires entry.agentId == OPERATOR_AGENT_ID && entry.keyId == operator.keyId
    ensures state.policy.seqNo.Some? && FindKey(state.policy.keys, OPERATOR_AGENT_ID, operator.keyId) == Some(entry)
  {
    PolicyKeysDistinct(c, state);
    assert entry in multiset(state.policy.keys);
    FindKeyExact(state.policy.keys, OPERATOR_AGENT_ID, operator.keyId, entry);
  }

  lemma ForeignShutsOut(c: Crypto, operator: Identity, state: State, entry: AllowedKey, bytes: Bytes)
    requires Genuine(c, operator) && !InControl(c, operator, state) && Foreign(c, operator, bytes)
    requires state.policy.seqNo.Some? && FindKey(state.policy.keys, OPERATOR_AGENT_ID, operator.keyId) == Some(entry)
    requires PublicKeyBytes(c, entry) == Some(bytes)
    ensures OutForGood(c, operator, state)
  {
    assert ShutOut(c, operator, state.policy);
    hide ShutOut, Run, PublicKeyBytes, Trim;
    ShutOutForGood(c, operator, state);
    forall commands
      ensures Run(c, operator, state, commands).policy == state.policy
    {
      RunShutOut(c, operator, state, commands);
    }
  }

  /** Allowing a key that is not listed yet is a commit of the list with its identity replaced. */
  lemma AllowNewKey(c: Crypto, operator: Identity, state: State, spec: KeySpec, entry: AllowedKey, hash: string)
    requires state.policy.seqNo.Some? && UpsertKey(c, state.registry, spec).Ok? && SpecBytes(c, spec).Some?
    requires entry == AllowedKeyOf(c, spec.agentId, spec.keyId, SpecBytes(c, spec).value)
    requires entry !in state.policy.keys
    ensures var registry := UpsertKey(c, state.registry, spec).value;
            ApplyOp(c, operator, state, AllowKey(spec), hash) ==
            Committing(c, operator, state.(registry := registry), state.policy.mode,
                       Without(state.policy.keys, spec.agentId, spec.keyId) + [entry], hash)
  {
    hide UpsertKey, SpecBytes, Committing, Without;
  }

  lemma UsurpingCommit(c: Crypto, operator: Identity, state: State, allowed: seq<AllowedKey>, hash: string)
    requires Genuine(c, operator) && Synced(c, state) && InControl(c, operator, state)
    requires Recordable(c, state.policy.mode, allowed) && allowed != []
    ensures var (after, done) := Committing(c, operator, state, state.policy.mode, allowed, hash);
            && done == Ok(true) && (OperatorKey(c, operator) !in allowed ==> !InControl(c, operator, after))
            && Synced(c, after) && multiset(after.policy.keys) == multiset(allowed)
  {
    hide Genuine, Recordable, CommitPolicy;
    CommitKeepsSynced(c, operator, state, state.policy.mode, allowed, hash);
    CommitSucceedsIff(c, operator, state, state.policy.mode, allowed, hash);
    CommitKeys(c, operator, state, state.policy.mode, allowed, hash);
    var after := CommitPolicy(c, operator, state, state.policy.mode, allowed, hash).0;
    assert OperatorKey(c, operator) in after.policy.keys ==> OperatorKey(c, operator) in multiset(after.policy.keys);
  }

  lemma UsurpsIs(c: Crypto, operator: Identity, state: State, spec: KeySpec)
    requires OtherKeyForOperator(c, operator, spec) && UpsertKey(c, state.registry, spec).Ok?
    requires Distinguished(c, operator, state.policy, SpecBytes(c, spec).value)
    ensures Usurps(c, operator, state, spec, SpecBytes(c, spec).value)
  {
    hide Distinguished, UpsertKey;
  }

  lemma UsurperEntry(c: Crypto, operator: Identity, state: State, spec: KeySpec, bytes: Bytes)
    requires Genuine(c, operator) && Usurps(c, operator, state, spec, bytes)
    ensures var entry := AllowedKeyOf(c, spec.agentId, spec.keyId, bytes);
            && entry.agentId == OPERATOR_AGENT_ID && entry.keyId == operator.keyId
            && entry != OperatorKey(c, operator)
            && PublicKeyBytes(c, entry) == Some(bytes) && entry !in state.policy.keys
            && forall k :: k in state.policy.keys ==> Leaf(c, k) != Leaf(c, entry)
    ensures !Sealed(operator, state.registry)
    ensures SpecBytes(c, spec) == Some(bytes)
    ensures spec.agentId == OPERATOR_AGENT_ID && spec.keyId == operator.keyId
    ensures UpsertKey(c, state.registry, spec).Ok?
  {
    OperatorAgentTrimmed();
    OperatorKeyFields(c, operator);
    if Sealed(operator, state.registry) {
      UpsertKeepsSealed(c, operator, state.registry, spec);
    }
  }

  lemma {:induction false} WithoutIsPart(keys: seq<AllowedKey>, agentId: string, keyId: string)
    requires DistinctIdentities(keys)
    ensures var rest := Without(keys, agentId, keyId);
            && |rest| <= |keys| && DistinctIdentities(rest)
            && (forall k :: k in rest ==> k in keys && !(k.agentId == agentId && k.keyId == keyId))
            && ((exists k :: k in keys && k.agentId == agentId && k.keyId == keyId) ==> |rest| < |keys|)
  {
    if keys != [] {
      WithoutIsPart(keys[1..], agentId, keyId);
      var rest := Without(keys[1..], agentId, keyId);
      assert forall k :: k in rest ==> k in keys[1..] && !SameIdentity(keys[0], k);
      assert keys == [keys[0]] + keys[1..];
    }
  }

  lemma {:induction false} WithoutDistinctLeaves(c: Crypto, keys: seq<AllowedKey>, agentId: string, keyId: string)
    requires DistinctLeaves(c, keys)
    ensures DistinctLeaves(c, Without(keys, agentId, keyId))
    ensures forall k :: k in Without(keys, agentId, keyId) ==> k in keys
  {
    hide Leaf;
    if keys != [] {
      var first, rest := keys[0], Without(keys[1..], agentId, keyId);
      WithoutDistinctLeaves(c, keys[1..], agentId, keyId);
      forall k | 0 <= k < |rest|
        ensures Leaf(c, first) != Leaf(c, rest[k])
      {
        assert rest[k] in rest && rest[k] in keys[1..];
      }
      assert Without(keys, agentId, keyId) == rest || Without(keys, agentId, keyId) == [first] + rest;
    }
  }

  lemma {:induction false} SortedIsDistinct(c: Crypto, keys: seq<AllowedKey>, j: nat, k: nat)
    requires AllDecode(c, keys) && SortedByLeaf(c, keys) && j < k < |keys|
    ensures LeafOf(c, keys[j]) < LeafOf(c, keys[k])
    decreases k
  {
    if j + 1 < k {
      SortedIsDistinct(c, keys, j, k - 1);
    }
  }

  lemma UsurpedIsRecordable(c: Crypto, operator: Identity, state: State, entry: AllowedKey)
    requires Synced(c, state) && InControl(c, operator, state) && Genuine(c, operator)
    requires entry.agentId == OPERATOR_AGENT_ID && entry.keyId == operator.keyId
    requires PublicKeyBytes(c, entry).Some?
    requires forall k :: k in state.policy.keys ==> Leaf(c, k) != Leaf(c, entry)
    ensures Recordable(c, state.policy.mode, Without(state.policy.keys, OPERATOR_AGENT_ID, operator.keyId) + [entry])
  {
    hide Leaf, Trim, PublicKeyBytes, Replay;
    var keys := state.policy.keys;
    var rest := Without(keys, OPERATOR_AGENT_ID, operator.keyId);
    PolicyKeysDistinct(c, state);
    OperatorKeyFields(c, operator);
    WithoutIsPart(keys, OPERATOR_AGENT_ID, operator.keyId);
    assert DistinctLeaves(c, keys) by { SortedLeavesDistinct(c, keys); }
    WithoutDistinctLeaves(c, keys, OPERATOR_AGENT_ID, operator.keyId);
    assert forall k :: 0 <= k < |rest| ==> rest[k] in rest;
    assert Named(entry) by { OperatorAgentTrimmed(); }
  }

  lemma SortedLeavesDistinct(c: Crypto, keys: seq<AllowedKey>)
    requires AllDecode(c, keys) && SortedByLeaf(c, keys)
    ensures DistinctLeaves(c, keys)
  {
    forall j, k | 0 <= j < k < |keys|
      ensures Leaf(c, keys[j]) != Leaf(c, keys[k])
    {
      SortedIsDistinct(c, keys, j, k);
    }
  }

  // ----- Exactly when control can end

  lemma UpsertIff(c: Crypto, operator: Identity, registry: Registry, spec: KeySpec)
    requires Genuine(c, operator) && OtherKeyForOperator(c, operator, spec)
    ensures UpsertKey(c, registry, spec).Ok? <==> TakesUnderOperator(operator, registry, SpecBytes(c, spec).value)
  {
    OperatorAgentTrimmed();
    hide Trim, IsLabel, SpecBytes, FindAgentKey, SignsAndVerifies;
  }

  lemma AllowRefused(c: Crypto, operator: Identity, state: State, spec: KeySpec, hash: string)
    requires UpsertKey(c, state.registry, spec).Err?
    ensures ApplyOp(c, operator, state, AllowKey(spec), hash).0 == state
  {
    hide UpsertKey;
  }

  /** The operator's identity under another spelling cannot be listed beside the operator's own entry. */
  lemma OtherSpellingNotRecordable(c: Crypto, operator: Identity, state: State, spec: KeySpec)
    requires Genuine(c, operator) && InControl(c, operator, state) && Impersonates(c, operator, spec)
    requires spec.agentId != OPERATOR_AGENT_ID || spec.keyId != operator.keyId
    ensures var entry := AllowedKeyOf(c, spec.agentId, spec.keyId, SpecBytes(c, spec).value);
            !Recordable(c, state.policy.mode, Without(state.policy.keys, spec.agentId, spec.keyId) + [entry])
  {
    var entry := AllowedKeyOf(c, spec.agentId, spec.keyId, SpecBytes(c, spec).value);
    var rest := Without(state.policy.keys, spec.agentId, spec.keyId);
    OperatorKeyFields(c, operator);
    WithoutKeeps(state.policy.keys, spec.agentId, spec.keyId, OperatorKey(c, operator));
    var k :| 0 <= k < |rest| && rest[k] == OperatorKey(c, operator);
    assert (rest + [entry])[k] == rest[k] && (rest + [entry])[|rest|] == entry;
    assert SameIdentity((rest + [entry])[k], (rest + [entry])[|rest|]);
  }

  lemma UnrecordableKeepsControl(c: Crypto, operator: Identity, state: State, mode: AccessMode, keys: seq<AllowedKey>,
                                 hash: string)
    requires InControl(c, operator, state) && !Recordable(c, mode, keys)
    ensures InControl(c, operator, Committing(c, operator, state, mode, keys, hash).0)
  {
    hide Recordable;
    NextRecordIff(c, state.policy, mode, keys);
  }

  lemma OtherSpellingKeepsControl(c: Crypto, operator: Identity, state: State, spec: KeySpec, hash: string)
    requires Genuine(c, operator) && InControl(c, operator, state) && Impersonates(c, operator, spec)
    requires spec.agentId != OPERATOR_AGENT_ID || spec.keyId != operator.keyId
    ensures InControl(c, operator, ApplyOp(c, operator, state, AllowKey(spec), hash).0)
  {
    OtherSpellingNotRecordable(c, operator, state, spec);
    var entry := AllowedKeyOf(c, spec.agentId, spec.keyId, SpecBytes(c, spec).value);
    if UpsertKey(c, state.registry, spec).Ok? {
      UnrecordableKeepsControl(c, operator, state.(registry := UpsertKey(c, state.registry, spec).value),
        state.policy.mode,
                               Without(state.policy.keys, spec.agentId, spec.keyId) + [entry], hash);
    }
    hide Recordable, Genuine, UpsertKey, Trim, IsLabel, Without, ApplyOp, Committing, AllowedKeyOf, SpecBytes;
    AllowKeyCases(c, operator, state, spec, hash);
  }

  /** Allowing a key leaves the policy alone or is one commit. */
  lemma AllowKeyCases(c: Crypto, operator: Identity, state: State, spec: KeySpec, hash: string)
    requires SpecBytes(c, spec).Some?
    ensures var after := ApplyOp(c, operator, state, AllowKey(spec), hash).0;
            var entry := AllowedKeyOf(c, spec.agentId, spec.keyId, SpecBytes(c, spec).value);
            || after.policy == state.policy
            || (UpsertKey(c, state.registry, spec).Ok? &&
                after == Committing(c, operator, state.(registry := UpsertKey(c, state.registry, spec).value),
                  state.policy.mode,
                                    Without(state.policy.keys, spec.agentId, spec.keyId) + [entry], hash).0)
  {
    hide UpsertKey, Committing, Without, AllowedKeyOf, SpecBytes;
  }

  /** Allowing a key ends the operator's control exactly when it is another usable key under exactly the
      operator's agent and key id, and the registry takes it: it has nothing under that id, or that very key. */
  lemma AllowKeyEndsControlIff(c: Crypto, operator: Identity, state: State, spec: KeySpec, hash: string)
    requires Genuine(c, operator) && Synced(c, state) && InControl(c, operator, state)
    requires OtherKeyForOperator(c, operator, spec) ==>
             Distinguished(c, operator, state.policy, SpecBytes(c, spec).value)
    ensures !InControl(c, operator, ApplyOp(c, operator, state, AllowKey(spec), hash).0) <==>
            OtherKeyForOperator(c, operator, spec) &&
              TakesUnderOperator(operator, state.registry, SpecBytes(c, spec).value)
  {
    OperatorAgentTrimmed();
    hide UpsertKey, ApplyOp, Synced, InControl, TakesUnderOperator, Distinguished, Sealed;
    if OtherKeyForOperator(c, operator, spec) {
      UpsertIff(c, operator, state.registry, spec);
      if UpsertKey(c, state.registry, spec).Ok? {
        UnsealedCanBeLockedOut(c, operator, state, spec, SpecBytes(c, spec).value, hash);
      } else {
        AllowRefused(c, operator, state, spec, hash);
      }
    } else if Impersonates(c, operator, spec) {
      OtherSpellingKeepsControl(c, operator, state, spec, hash);
    } else {
      ApplyKeepsControl(c, operator, state, AllowKey(spec), hash);
    }
  }

  // ----- Mode changes

  lemma UpsertBinds(c: Crypto, operator: Identity, registry: Registry, spec: KeySpec)
    requires Impersonates(c, operator, spec) && UpsertKey(c, registry, spec).Ok?
    ensures Lookup(UpsertKey(c, registry, spec).value, OPERATOR_AGENT_ID, operator.keyId) ==
            Some(AgentKey(operator.keyId, SpecBytes(c, spec).value, false))
  {
    hide Trim, IsLabel, SpecBytes;
    var agent := AgentOf(registry, OPERATOR_AGENT_ID);
    FindAppended(agent.keys, [AgentKey(operator.keyId, SpecBytes(c, spec).value, false)], operator.keyId);
    FoundHasId(agent.keys, operator.keyId);
  }

  lemma {:induction false} FoundHasId(keys: seq<AgentKey>, keyId: string)
    ensures FindAgentKey(keys, keyId).Some? ==> FindAgentKey(keys, keyId).value.keyId == keyId
  {
    if keys != [] {
      FoundHasId(keys[1..], keyId);
    }
  }

  /** A key that is bound stays bound, and another one is refused under its id. */
  lemma UpsertKeepsBound(c: Crypto, operator: Identity, registry: Registry, spec: KeySpec, key: AgentKey)
    requires Lookup(registry, OPERATOR_AGENT_ID, operator.keyId) == Some(key) && UpsertKey(c, registry, spec).Ok?
    ensures Lookup(UpsertKey(c, registry, spec).value, OPERATOR_AGENT_ID, operator.keyId) == Some(key)
    ensures Trim(spec.agentId) == OPERATOR_AGENT_ID && Trim(spec.keyId) == operator.keyId ==>
              SpecBytes(c, spec) == Some(key.bytes)
  {
    UpsertDecodes(c, registry, spec);
    hide Trim, IsLabel, SpecBytes;
    var agent := AgentOf(registry, Trim(spec.agentId));
    FindAppended(agent.keys, [AgentKey(Trim(spec.keyId), SpecBytes(c, spec).value, false)], operator.keyId);
  }

  lemma {:induction false} UpsertAllSplits(c: Crypto, registry: Registry, front: seq<KeySpec>, last: KeySpec)
    ensures var (middle, done) := UpsertAll(c, registry, front);
            UpsertAll(c, registry, front + [last]).1.Ok? ==>
              && done.Ok? && UpsertKey(c, middle, last).Ok?
              && UpsertAll(c, registry, front + [last]).0 == UpsertKey(c, middle, last).value
    decreases |front|
  {
    hide UpsertKey;
    var specs := front + [last];
    if front == [] {
      assert specs[1..] == [];
    } else {
      assert specs[1..] == front[1..] + [last];
      if UpsertKey(c, registry, front[0]).Ok? {
        UpsertAllSplits(c, UpsertKey(c, registry, front[0]).value, front[1..], last);
      }
    }
  }

  /** Keys brought in under the operator's ids, in any spelling, read back from their hexadecimal form. */
  ghost predicate ReadBack(c: Crypto, operator: Identity, specs: seq<KeySpec>) {
    forall k :: 0 <= k < |specs| && Impersonates(c, operator, specs[k]) ==>
      c.fromHex(c.toHex(SpecBytes(c, specs[k]).value)) == Some(SpecBytes(c, specs[k]).value)
  }

  ghost predicate SomeImpersonates(c: Crypto, operator: Identity, specs: seq<KeySpec>) {
    exists k :: 0 <= k < |specs| && Impersonates(c, operator, specs[k])
  }

  /** Some key that is not the operator's is bound to its id. */
  ghost predicate BoundToOther(operator: Identity, registry: Registry) {
    var known := Lookup(registry, OPERATOR_AGENT_ID, operator.keyId);
    known.Some? && known.value.bytes != operator.publicKey
  }

  lemma PushDrops(c: Crypto, operator: Identity, keys: seq<AllowedKey>, spec: KeySpec)
    requires Genuine(c, operator) && SpecBytes(c, spec).Some?
    requires Trim(spec.agentId) == OPERATOR_AGENT_ID && Trim(spec.keyId) == operator.keyId ==>
             Impersonates(c, operator, spec)
    requires Impersonates(c, operator, spec) || OperatorKey(c, operator) !in keys
    requires ReadBack(c, operator, [spec])
    ensures OperatorKey(c, operator) !in Push(keys, AllowedKeyOf(c, spec.agentId, spec.keyId, SpecBytes(c, spec).value))
  {
    OperatorKeyFields(c, operator);
    var key := AllowedKeyOf(c, spec.agentId, spec.keyId, SpecBytes(c, spec).value);
    WithoutKeeps(keys, key.agentId, key.keyId, OperatorKey(c, operator));
    assert Impersonates(c, operator, [spec][0]) ==> key != OperatorKey(c, operator);
  }

  /** When all of `specs` register and one of them has the operator's ids with another key, the list they
      are pushed onto loses the operator's entry. */
  lemma {:induction false} PushSpecsDrops(c: Crypto, operator: Identity, registry: Registry, keys: seq<AllowedKey>,
                                          specs: seq<KeySpec>)
    requires Genuine(c, operator) && ReadBack(c, operator, specs) && SomeImpersonates(c, operator, specs)
    requires UpsertAll(c, registry, specs).1.Ok?
    ensures BoundToOther(operator, UpsertAll(c, registry, specs).0)
    ensures OperatorKey(c, operator) !in PushSpecs(c, keys, specs)
  {
    var front, last := specs[..|specs| - 1], specs[|specs| - 1];
    assert specs == front + [last];
    var middle := UpsertAll(c, registry, front).0;
    UpsertAllSplits(c, registry, front, last);
    UpsertDecodes(c, middle, last);
    assert ReadBack(c, operator, [last]) by {
      assert Impersonates(c, operator, [last][0]) ==> Impersonates(c, operator, specs[|front|]);
    }
    hide Genuine, Impersonates, UpsertKey, UpsertAll, OperatorKey, Trim, SpecBytes, Push, AllowedKeyOf, BoundToOther;
    if SomeImpersonates(c, operator, front) {
      PushSpecsDrops(c, operator, registry, keys, front);
      LastKeepsOut(c, operator, middle, PushSpecs(c, keys, front), last);
    } else {
      assert Impersonates(c, operator, last);
      UpsertBinds(c, operator, middle, last);
      LastTakesOut(c, operator, middle, PushSpecs(c, keys, front), last);
    }
  }

  lemma LastKeepsOut(c: Crypto, operator: Identity, registry: Registry, keys: seq<AllowedKey>, last: KeySpec)
    requires Genuine(c, operator) && ReadBack(c, operator, [last]) && OperatorKey(c, operator) !in keys
    requires BoundToOther(operator, registry) && UpsertKey(c, registry, last).Ok? && SpecBytes(c, last).Some?
    ensures BoundToOther(operator, UpsertKey(c, registry, last).value)
    ensures OperatorKey(c, operator) !in Push(keys, AllowedKeyOf(c, last.agentId, last.keyId, SpecBytes(c, last).value))
  {
    hide Genuine, OperatorKey, SpecBytes, UpsertKey, Push, Trim;
    UpsertKeepsBound(c, operator, registry, last, Lookup(registry, OPERATOR_AGENT_ID, operator.keyId).value);
    PushDrops(c, operator, keys, last);
  }

  lemma LastTakesOut(c: Crypto, operator: Identity, registry: Registry, keys: seq<AllowedKey>, last: KeySpec)
    requires Genuine(c, operator) && ReadBack(c, operator, [last]) && Impersonates(c, operator, last)
    requires UpsertKey(c, registry, last).Ok? && SpecBytes(c, last).Some?
    ensures BoundToOther(operator, UpsertKey(c, registry, last).value)
    ensures OperatorKey(c, operator) !in Push(keys, AllowedKeyOf(c, last.agentId, last.keyId, SpecBytes(c, last).value))
  {
    UpsertBinds(c, operator, registry, last);
    PushDrops(c, operator, keys, last);
  }

  /** A mode change ends the operator's control exactly when one of the keys it brings has the operator's ids,
      in any spelling, all of them register, and the list it asks for makes a record. */
  lemma SetModeEndsControlIff(c: Crypto, operator: Identity, state: State, mode: AccessMode, specs: seq<KeySpec>,
                              hash: string)
    requires Genuine(c, operator) && Synced(c, state) && InControl(c, operator, state) && ReadBack(c, operator, specs)
    ensures !InControl(c, operator, ApplyOp(c, operator, state, SetMode(mode, specs), hash).0) <==>
            && |specs| < MAX_POLICY_KEYS && SomeImpersonates(c, operator, specs)
            && UpsertAll(c, state.registry, specs).1.Ok?
            && Recordable(c, mode, PushSpecs(c, Push(state.policy.keys, OperatorKey(c, operator)), specs))
  {
    var own := OperatorKey(c, operator);
    var (registry, done) := UpsertAll(c, state.registry, specs);
    var allowed := PushSpecs(c, Push(state.policy.keys, own), specs);
    PolicyKeysDistinct(c, state);
    NothingNamed(c, operator, state, mode, specs);
    hide *;
    if !SomeImpersonates(c, operator, specs) {
      ApplyKeepsControl(c, operator, state, SetMode(mode, specs), hash);
    } else if |specs| >= MAX_POLICY_KEYS || done.Err? {
      SetModeRefused(c, operator, state, mode, specs, hash);
    } else {
      PushSpecsDrops(c, operator, state.registry, Push(state.policy.keys, own), specs);
      SetModeCommits(c, operator, state, mode, specs, hash);
      if Recordable(c, mode, allowed) {
        PushSpecsNonEmpty(c, Push(state.policy.keys, own), specs);
        CommitDrops(c, operator, state.(registry := registry), mode, allowed, hash);
      } else {
        UnrecordableKeepsControl(c, operator, state.(registry := registry), mode, allowed, hash);
      }
    }
  }

  lemma NothingNamed(c: Crypto, operator: Identity, state: State, mode: AccessMode, specs: seq<KeySpec>)
    ensures !SomeImpersonates(c, operator, specs) ==> Protected(c, operator, state, SetMode(mode, specs))
  {
    hide Impersonates, Sealed;
  }

  lemma SetModeRefused(c: Crypto, operator: Identity, state: State, mode: AccessMode, specs: seq<KeySpec>, hash: string)
    requires |specs| >= MAX_POLICY_KEYS || UpsertAll(c, state.registry, specs).1.Err?
    requires InControl(c, operator, state)
    ensures InControl(c, operator, ApplyOp(c, operator, state, SetMode(mode, specs), hash).0)
  {
    hide UpsertAll, OperatorKey;
  }

  /** A mode change to a list without the operator's entry is a commit of that list. */
  lemma SetModeCommits(c: Crypto, operator: Identity, state: State, mode: AccessMode, specs: seq<KeySpec>, hash: string)
    requires |specs| < MAX_POLICY_KEYS && UpsertAll(c, state.registry, specs).1.Ok?
    requires InControl(c, operator, state) && state.policy.seqNo.Some?
    requires OperatorKey(c, operator) !in PushSpecs(c, Push(state.policy.keys, OperatorKey(c, operator)), specs)
    ensures ApplyOp(c, operator, state, SetMode(mode, specs), hash) ==
            Committing(c, operator, state.(registry := UpsertAll(c, state.registry, specs).0), mode,
                       PushSpecs(c, Push(state.policy.keys, OperatorKey(c, operator)), specs), hash)
  {
    hide UpsertAll, PushSpecs, OperatorKey, Push, Committing;
  }

  lemma {:induction false} PushSpecsNonEmpty(c: Crypto, keys: seq<AllowedKey>, specs: seq<KeySpec>)
    requires keys != []
    ensures PushSpecs(c, keys, specs) != []
  {
    hide SpecBytes, Without;
    if specs != [] {
      PushSpecsNonEmpty(c, keys, specs[..|specs| - 1]);
    }
  }

  lemma CommitDrops(c: Crypto, operator: Identity, state: State, mode: AccessMode, keys: seq<AllowedKey>, hash: string)
    requires Genuine(c, operator) && Synced(c, state) && InControl(c, operator, state)
    requires Recordable(c, mode, keys) && keys != [] && OperatorKey(c, operator) !in keys
    ensures !InControl(c, operator, Committing(c, operator, state, mode, keys, hash).0)
  {
    hide Genuine, Recordable, CommitPolicy, OperatorKey;
    CommitSucceedsIff(c, operator, state, mode, keys, hash);
    CommitKeys(c, operator, state, mode, keys, hash);
    var after := CommitPolicy(c, operator, state, mode, keys, hash).0;
    assert OperatorKey(c, operator) in after.policy.keys ==> OperatorKey(c, operator) in multiset(after.policy.keys);
  }

  /** The commands that end control, told before they are given. */
  ghost predicate Ends(c: Crypto, operator: Identity, state: State, op: Op) {
    match op
    case SetMode(mode, specs) =>
      && |specs| < MAX_POLICY_KEYS && SomeImpersonates(c, operator, specs)
      && UpsertAll(c, state.registry, specs).1.Ok?
      && Recordable(c, mode, PushSpecs(c, Push(state.policy.keys, OperatorKey(c, operator)), specs))
    case AllowKey(spec) =>
      OtherKeyForOperator(c, operator, spec) && TakesUnderOperator(operator, state.registry, SpecBytes(c, spec).value)
    case _ => false
  }

  /** What is asked of a key brought in under the operator's ids: its form reads back, and for a single
      key its leaf is new. */
  ghost predicate Readable(c: Crypto, operator: Identity, policy: Policy, op: Op) {
    match op
    case SetMode(_, specs) => ReadBack(c, operator, specs)
    case AllowKey(spec) => OtherKeyForOperator(c, operator, spec) ==>
        Distinguished(c, operator, policy, SpecBytes(c, spec).value)
    case _ => true
  }

  /** For every command: it ends the operator's control exactly when it is one of these. */
  lemma EndsControlIff(c: Crypto, operator: Identity, state: State, op: Op, hash: string)
    requires Genuine(c, operator) && Synced(c, state) && InControl(c, operator, state)
    requires Readable(c, operator, state.policy, op)
    ensures !InControl(c, operator, ApplyOp(c, operator, state, op, hash).0) <==> Ends(c, operator, state, op)
  {
    hide Genuine, Synced, InControl, ApplyOp, Recordable, SomeImpersonates, OtherKeyForOperator, Distinguished,
         ReadBack, TakesUnderOperator, UpsertAll, PushSpecs, Push, OperatorKey, Sealed, SpecBytes;
    match op
    case SetMode(mode, specs) => SetModeEndsControlIff(c, operator, state, mode, specs, hash);
    case AllowKey(spec) => AllowKeyEndsControlIff(c, operator, state, spec, hash);
    case _ => ApplyKeepsControl(c, operator, state, op, hash);
  }

  // ----- When control can be lost for good

  lemma {:induction false} RunConcat(c: Crypto, operator: Identity, state: State, first: seq<Command>,
                                     more: seq<Command>)
    ensures Run(c, operator, state, first + more) == Run(c, operator, Run(c, operator, state, first), more)
    decreases |more|
  {
    hide ApplyOp;
    if more == [] {
      assert first + more == first;
    } else {
      var front := more[..|more| - 1];
      RunConcat(c, operator, state, first, front);
      assert (first + more)[..|first + more| - 1] == first + front;
    }
  }

  /** `other` brings another usable key under the operator's ids: the one bound to them already, if one is,
      with a form that reads back and a leaf of its own, under which the operator's signatures do not verify. */
  ghost predicate Rival(c: Crypto, operator: Identity, state: State, other: KeySpec) {
    && OtherKeyForOperator(c, operator, other)
    && Distinguished(c, operator, state.policy, SpecBytes(c, other).value)
    && Foreign(c, operator, SpecBytes(c, other).value)
    && var known := Lookup(state.registry, OPERATOR_AGENT_ID, operator.keyId);
       known.None? || known.value.bytes == SpecBytes(c, other).value || Sealed(operator, state.registry)
  }

  lemma RivalIs(c: Crypto, operator: Identity, state: State, spec: KeySpec)
    requires OtherKeyForOperator(c, operator, spec) &&
             Distinguished(c, operator, state.policy, SpecBytes(c, spec).value)
    requires TakesUnderOperator(operator, state.registry, SpecBytes(c, spec).value)
    ensures Foreign(c, operator, SpecBytes(c, spec).value) ==> Rival(c, operator, state, spec)
  {
    hide Distinguished, Foreign;
  }

  lemma RivalTakes(c: Crypto, operator: Identity, state: State, other: KeySpec)
    requires Rival(c, operator, state, other) && !Sealed(operator, state.registry)
    ensures OtherKeyForOperator(c, operator, other) && SpecBytes(c, other).Some?
    ensures TakesUnderOperator(operator, state.registry, SpecBytes(c, other).value)
    ensures Distinguished(c, operator, state.policy, SpecBytes(c, other).value) &&
            Foreign(c, operator, SpecBytes(c, other).value)
  {
    hide Lookup, SpecBytes, Distinguished, Foreign;
  }

  /** While the registry is not sealed, allowing the rival key shuts the operator out for good. */
  lemma RivalShutsOut(c: Crypto, operator: Identity, state: State, other: KeySpec)
    requires Genuine(c, operator) && Synced(c, state) && InControl(c, operator, state)
    requires Rival(c, operator, state, other) && !Sealed(operator, state.registry)
    ensures OutForGood(c, operator, Run(c, operator, state, [Command(AllowKey(other), "")]))
  {
    hide *;
    RivalTakes(c, operator, state, other);
    UpsertIff(c, operator, state.registry, other);
    UsurpsIs(c, operator, state, other);
    UnsealedCanBeLockedOut(c, operator, state, other, SpecBytes(c, other).value, "");
    OneCommandRun(c, operator, state, AllowKey(other), "");
  }

  lemma SealedIsSafe(c: Crypto, operator: Identity, state: State, commands: seq<Command>)
    requires Genuine(c, operator) && InControl(c, operator, state) && Sealed(operator, state.registry)
    ensures InControl(c, operator, Run(c, operator, state, commands))
    ensures CanTakeBack(c, operator, Run(c, operator, state, commands))
  {
    hide Genuine, InControl, Sealed;
    NeverLockedOut(c, operator, state, commands);
    assert Run(c, operator, Run(c, operator, state, commands), []) == Run(c, operator, state, commands);
  }

  /** For an operator in control these are the same: it stays in control through every run of commands; after
      every run some further run gives it control; the registry holds its key id for its own key or for a
      revoked one. While the registry does not, some run leaves a policy that no further run changes. */
  lemma NeverLockedOutIff(c: Crypto, operator: Identity, state: State, other: KeySpec)
    requires Genuine(c, operator) && Synced(c, state) && InControl(c, operator, state) &&
             Rival(c, operator, state, other)
    ensures (forall commands :: InControl(c, operator, Run(c, operator, state, commands))) <==>
            Sealed(operator, state.registry)
    ensures (forall commands :: CanTakeBack(c, operator, Run(c, operator, state, commands))) <==>
            Sealed(operator, state.registry)
    ensures (exists commands :: OutForGood(c, operator, Run(c, operator, state, commands))) <==>
            !Sealed(operator, state.registry)
  {
    hide Genuine, Synced, InControl, Rival, Sealed, CanTakeBack, Run;
    if Sealed(operator, state.registry) {
      forall commands
        ensures InControl(c, operator, Run(c, operator, state, commands))
        ensures CanTakeBack(c, operator, Run(c, operator, state, commands))
      {
        SealedIsSafe(c, operator, state, commands);
      }
    } else {
      RivalShutsOut(c, operator, state, other);
      InControlTakesBack(c, operator, Run(c, operator, state, [Command(AllowKey(other), "")]));
    }
  }

  lemma InControlTakesBack(c: Crypto, operator: Identity, state: State)
    ensures InControl(c, operator, state) ==> CanTakeBack(c, operator, state)
  {
    assert Run(c, operator, state, []) == state;
  }

  lemma OneCommandRun(c: Crypto, operator: Identity, state: State, op: Op, hash: string)
    ensures Run(c, operator, state, [Command(op, hash)]) == ApplyOp(c, operator, state, op, hash).0
  {
    hide ApplyOp;
    assert [Command(op, hash)][..0] == [];
  }

  // ----- A run that ends control, from an empty chain

  function NewChain(c: Crypto): State {
    State([], NoPolicy(c), map[])
  }

  lemma RegisterFirst(c: Crypto, operator: Identity, spec: KeySpec)
    requires Genuine(c, operator) && OtherKeyForOperator(c, operator, spec)
    ensures var (after, done) := ApplyOp(c, operator, NewChain(c), RegisterKey(spec), "first");
            && done == Ok(true) && after == NewChain(c).(registry := after.registry)
            && Lookup(after.registry, OPERATOR_AGENT_ID, operator.keyId) ==
               Some(AgentKey(operator.keyId, SpecBytes(c, spec).value, false))
  {
    BindFirst(c, operator, spec);
    hide ApplyOp, UpsertKey, Lookup, SpecBytes, Genuine, OtherKeyForOperator;
    RegisterBinds(c, operator, NewChain(c), spec, "first");
  }

  lemma RegisterBinds(c: Crypto, operator: Identity, state: State, spec: KeySpec, hash: string)
    requires UpsertKey(c, state.registry, spec).Ok?
    ensures ApplyOp(c, operator, state, RegisterKey(spec), hash) ==
            (state.(registry := UpsertKey(c, state.registry, spec).value), Ok(true))
  {
    hide UpsertKey;
  }

  lemma BindFirst(c: Crypto, operator: Identity, spec: KeySpec)
    requires Genuine(c, operator) && OtherKeyForOperator(c, operator, spec)
    ensures var after := UpsertKey(c, map[], spec);
            && after.Ok?
            && Lookup(after.value, OPERATOR_AGENT_ID, operator.keyId) ==
               Some(AgentKey(operator.keyId, SpecBytes(c, spec).value, false))
  {
    OperatorAgentTrimmed();
    hide Trim, IsLabel;
    assert STUB.keys == [];
    FindAppended([], [AgentKey(operator.keyId, SpecBytes(c, spec).value, false)], operator.keyId);
    assert [] + [AgentKey(operator.keyId, SpecBytes(c, spec).value, false)] ==
           [AgentKey(operator.keyId, SpecBytes(c, spec).value, false)];
  }

  lemma OwnKeyRecordable(c: Crypto, operator: Identity, mode: AccessMode)
    requires Genuine(c, operator)
    ensures Recordable(c, mode, [OperatorKey(c, operator)])
  {
    OperatorKeyFields(c, operator);
    OperatorAgentTrimmed();
  }

  /** Closing a chain without a policy puts the operator, alone, in control and keeps what the registry
      holds under its id. */
  lemma CloseKeepsId(c: Crypto, operator: Identity, registry: Registry)
    requires Genuine(c, operator) && Lookup(registry, OPERATOR_AGENT_ID, operator.keyId).Some?
    ensures var state := State([], NoPolicy(c), registry);
            var (after, done) := ApplyOp(c, operator, state, SetMode(Allowlist, []), "second");
            && done == Ok(true) && InControl(c, operator, after) && Synced(c, after)
            && multiset(after.policy.keys) == multiset([OperatorKey(c, operator)])
            && Lookup(after.registry, OPERATOR_AGENT_ID, operator.keyId) ==
               Lookup(registry, OPERATOR_AGENT_ID, operator.keyId)
  {
    var state, own := State([], NoPolicy(c), registry), OperatorKey(c, operator);
    assert Synced(c, state) && state.policy.seqNo.None? && state.policy.keys == [];
    OwnKeyRecordable(c, operator, Allowlist);
    hide Genuine, Recordable, CommitPolicy, Replay, Synced, ApplyOp, OperatorKey, Lookup, EnsureRegistered, NoPolicy;
    SetModeFirst(c, operator, state, "second");
    CommitSucceedsIff(c, operator, state, Allowlist, [own], "second");
    CommitKeys(c, operator, state, Allowlist, [own], "second");
    CommitKeepsSynced(c, operator, state, Allowlist, [own], "second");
    var after := CommitPolicy(c, operator, state, Allowlist, [own], "second").0;
    assert own in multiset(after.policy.keys);
    CommitKeepsId(c, operator, state, [own]);
  }

  lemma CommitKeepsId(c: Crypto, operator: Identity, state: State, keys: seq<AllowedKey>)
    requires Lookup(state.registry, OPERATOR_AGENT_ID, operator.keyId).Some?
    ensures CommitPolicy(c, operator, state, Allowlist, keys, "second").0.registry == state.registry
  {
    assert EnsureRegistered(state.registry, operator) == state.registry;
    hide EnsureRegistered, NextRecord, CheckThought, RecordThought;
  }

  /** Closing a chain that has no keys is a commit of the operator's own. */
  lemma SetModeFirst(c: Crypto, operator: Identity, state: State, hash: string)
    requires state.policy.seqNo.None? && state.policy.keys == []
    ensures ApplyOp(c, operator, state, SetMode(Allowlist, []), hash) ==
            Committing(c, operator, state, Allowlist, [OperatorKey(c, operator)], hash)
  {
    hide Committing, OperatorKey;
    assert PushSpecs(c, Push([], OperatorKey(c, operator)), []) == [OperatorKey(c, operator)];
    assert UpsertAll(c, state.registry, []) == (state.registry, Ok(()));
    assert state.(registry := state.registry) == state;
  }

  /** On a new chain: another key registered under the operator's agent and key id, the chain closed, that
      key allowed. The operator is in control after the second command, and after the third no run of commands
      changes the policy or gives control back, when its signatures do not verify under that key. */
  lemma LockedOutRun(c: Crypto, operator: Identity, spec: KeySpec)
    requires Genuine(c, operator) && OtherKeyForOperator(c, operator, spec)
    requires var bytes := SpecBytes(c, spec).value;
             && c.fromHex(c.toHex(bytes)) == Some(bytes)
             && c.leaf(OPERATOR_AGENT_ID, operator.keyId, bytes) !=
                c.leaf(OPERATOR_AGENT_ID, operator.keyId, operator.publicKey)
    ensures var commands := [Command(RegisterKey(spec), "first"), Command(SetMode(Allowlist, []), "second")];
            && var closed := Run(c, operator, NewChain(c), commands);
            && Synced(c, closed) && InControl(c, operator, closed)
            && (Foreign(c, operator, SpecBytes(c, spec).value) ==> Rival(c, operator, closed, spec))
            && var after := Run(c, operator, NewChain(c), commands + [Command(AllowKey(spec), "third")]);
            && !InControl(c, operator, after)
            && (Foreign(c, operator, SpecBytes(c, spec).value) ==> OutForGood(c, operator, after))
  {
    RegisterFirst(c, operator, spec);
    hide *;
    var one := ApplyOp(c, operator, NewChain(c), RegisterKey(spec), "first").0;
    CloseKeepsId(c, operator, one.registry);
    var two := ApplyOp(c, operator, one, SetMode(Allowlist, []), "second").0;
    OnlyOwnKey(c, operator, two.policy, SpecBytes(c, spec).value);
    assert one == State([], NoPolicy(c), one.registry);
    TwoCommandRun(c, operator, NewChain(c), Command(RegisterKey(spec), "first"),
      Command(SetMode(Allowlist, []), "second"),
                  Command(AllowKey(spec), "third"));
    assert TakesUnderOperator(operator, two.registry, SpecBytes(c, spec).value);
    UpsertIff(c, operator, two.registry, spec);
    UsurpsIs(c, operator, two, spec);
    RivalIs(c, operator, two, spec);
    UnsealedCanBeLockedOut(c, operator, two, spec, SpecBytes(c, spec).value, "third");
  }

  lemma TwoCommandRun(c: Crypto, operator: Identity, state: State, first: Command, second: Command, third: Command)
    ensures var one := ApplyOp(c, operator, state, first.op, first.hash).0;
            var two := ApplyOp(c, operator, one, second.op, second.hash).0;
            && Run(c, operator, state, [first, second]) == two
            && Run(c, operator, state, [first, second] + [third]) == ApplyOp(c, operator, two, third.op, third.hash).0
  {
    hide ApplyOp;
    var all := [first, second] + [third];
    OneCommandRun(c, operator, state, first.op, first.hash);
    assert first == Command(first.op, first.hash);
    assert [first, second][..1] == [first] && [first, second][1] == second;
    assert all[..2] == [first, second] && all[2] == third;
  }

  lemma OnlyOwnKey(c: Crypto, operator: Identity, policy: Policy, bytes: Bytes)
    requires Genuine(c, operator) && multiset(policy.keys) == multiset([OperatorKey(c, operator)])
    requires c.fromHex(c.toHex(bytes)) == Some(bytes)
    requires c.leaf(OPERATOR_AGENT_ID, operator.keyId, bytes) !=
             c.leaf(OPERATOR_AGENT_ID, operator.keyId, operator.publicKey)
    ensures Distinguished(c, operator, policy, bytes)
  {
    OperatorKeyFields(c, operator);
    forall k | k in policy.keys
      ensures k == OperatorKey(c, operator)
    {
      assert k in multiset(policy.keys);
    }
  }

  /** Primitives with two one-byte keys; a signature is the byte of the key that made it, and verifies under that key
      alone. */
  function TwoKeys(): Crypto {
    Crypto(
      s => if s == "1" then Some([1]) else if s == "2" then Some([2]) else None,
      b => if b == [1] then "1" else "2",
      b => true,
      (a, k, x) => if x == [1] then 1 else 2,
      l => "root",
      b => Some(StoredSignature(V2, b)),
      (k, p, s) => k == s,
      (a, p, r, n) => [])
  }

  const FIRST_OPERATOR := Identity("key", [1], b => [1])
  const SECOND_KEY := KeySpec(OPERATOR_AGENT_ID, "key", "2")
  const LOCK_OUT := [Command(RegisterKey(SECOND_KEY), "first"), Command(SetMode(Allowlist, []), "second")]

  /** One such run from a new chain, with everything given. After it no run of commands ever changes the
      policy or puts the operator back in control. */
  lemma OperatorCanBeLockedOut()
    ensures Genuine(TwoKeys(), FIRST_OPERATOR)
    ensures var closed := Run(TwoKeys(), FIRST_OPERATOR, NewChain(TwoKeys()), LOCK_OUT);
            && Synced(TwoKeys(), closed) && InControl(TwoKeys(), FIRST_OPERATOR, closed)
            && Rival(TwoKeys(), FIRST_OPERATOR, closed, SECOND_KEY)
    ensures OutForGood(TwoKeys(), FIRST_OPERATOR,
                       Run(TwoKeys(), FIRST_OPERATOR, NewChain(TwoKeys()),
                         LOCK_OUT + [Command(AllowKey(SECOND_KEY), "third")]))
  {
    FirstOperatorIsGenuine();
    SecondKeyIsUsable();
    SecondKeyIsForeign();
    hide Genuine, InControl, Run, NewChain, IsLabel, Foreign, OutForGood, Rival, Synced;
    LockedOutRun(TwoKeys(), FIRST_OPERATOR, SECOND_KEY);
  }

  lemma SecondKeyIsForeign()
    ensures Foreign(TwoKeys(), FIRST_OPERATOR, [2])
  {
  }

  lemma FirstOperatorIsGenuine()
    ensures Genuine(TwoKeys(), FIRST_OPERATOR)
  {
    assert Trim("key") == "key" by { assert "key"[0] == 'k' && "key"[2] == 'y'; }
    forall payload
      ensures SignsAndVerifies(TwoKeys(), FIRST_OPERATOR, payload)
    {
    }
  }

  lemma SecondKeyIsUsable()
    ensures SpecBytes(TwoKeys(), SECOND_KEY) == Some([2])
  {
    LabelsArePlain();
    hide IsLabel;
  }

  lemma LabelsArePlain()
    ensures IsLabel("key") && IsLabel(OPERATOR_AGENT_ID)
  {
    OperatorAgentTrimmed();
    assert Trim("key") == "key" by { assert "key"[0] == 'k' && "key"[2] == 'y'; }
    hide Trim, IsLabel;
    PlainLabel("key");
    PlainLabel(OPERATOR_AGENT_ID);
  }

  lemma PlainLabel(s: string)
    requires Trim(s) == s != "" && |s| <= 64 && forall k :: 0 <= k < |s| ==> '-' <= s[k] <= 'z'
    ensures IsLabel(s)
  {
    Utf8LenBound(s);
    hide Utf8Len, Trim;
  }

  lemma {:induction false} Utf8LenBound(s: string)
    ensures Utf8Len(s) <= 4 * |s|
  {
    if s != [] {
      Utf8LenBound(s[1..]);
    }
  }

  // ----- Repeating a mode change

  lemma {:induction false} WithoutLast(keys: seq<AllowedKey>, key: AllowedKey)
    requires keys != [] && keys[|keys| - 1] == key && DistinctIdentities(keys)
    ensures Without(keys, key.agentId, key.keyId) == keys[..|keys| - 1]
  {
    if |keys| > 1 {
      WithoutLast(keys[1..], key);
      assert !SameIdentity(keys[0], keys[|keys| - 1]);
      assert keys[..|keys| - 1] == [keys[0]] + keys[1..][..|keys| - 2];
    }
  }

  lemma {:induction false} PushPermutes(keys: seq<AllowedKey>, key: AllowedKey)
    requires DistinctIdentities(keys) && key in keys
    ensures multiset(Push(keys, key)) == multiset(keys)
  {
    var first, rest := keys[0], keys[1..];
    assert keys == [first] + rest;
    if first == key {
      assert DistinctIdentities([key] + rest);
      WithoutFirst(rest, key);
    } else {
      hide Push;
      PushPermutes(rest, key);
      PushPast(first, rest, key);
    }
  }

  lemma WithoutFirst(rest: seq<AllowedKey>, key: AllowedKey)
    requires DistinctIdentities([key] + rest)
    ensures Without([key] + rest, key.agentId, key.keyId) == rest
  {
    var keys := [key] + rest;
    forall k | 0 <= k < |rest|
      ensures !SameIdentity(key, rest[k])
    {
      assert !SameIdentity(keys[0], keys[k + 1]);
    }
    NothingWithout(rest, key);
    assert keys[1..] == rest;
  }

  lemma PushPast(first: AllowedKey, rest: seq<AllowedKey>, key: AllowedKey)
    requires DistinctIdentities([first] + rest) && key in rest
    ensures Push([first] + rest, key) == [first] + Push(rest, key)
  {
    var keys := [first] + rest;
    var k :| 0 <= k < |rest| && rest[k] == key;
    assert !SameIdentity(keys[0], keys[k + 1]);
    assert keys[1..] == rest;
    assert Without(keys, key.agentId, key.keyId) == [first] + Without(rest, key.agentId, key.keyId);
  }

  lemma {:induction false} NothingWithout(keys: seq<AllowedKey>, key: AllowedKey)
    requires forall k :: 0 <= k < |keys| ==> !SameIdentity(key, keys[k])
    ensures Without(keys, key.agentId, key.keyId) == keys
  {
    if keys != [] {
      NothingWithout(keys[1..], key);
      assert !SameIdentity(key, keys[0]);
      assert keys == [keys[0]] + keys[1..];
    }
  }

  lemma PushKeepsLeaves(c: Crypto, keys: seq<AllowedKey>, key: AllowedKey)
    requires DistinctLeaves(c, keys) && key in keys
    ensures DistinctLeaves(c, Push(keys, key))
  {
    hide Leaf;
    var rest := Without(keys, key.agentId, key.keyId);
    WithoutDistinctLeaves(c, keys, key.agentId, key.keyId);
    var j :| 0 <= j < |keys| && keys[j] == key;
    forall k | 0 <= k < |rest|
      ensures Leaf(c, rest[k]) != Leaf(c, key)
    {
      WithoutKeeps(keys, key.agentId, key.keyId, rest[k]);
      assert rest[k] in rest;
      var i :| 0 <= i < |keys| && keys[i] == rest[k];
      assert i != j;
    }
  }

  lemma PushKeepsShape(c: Crypto, keys: seq<AllowedKey>, key: AllowedKey)
    requires DistinctIdentities(keys) && key in keys
    ensures var pushed := Push(keys, key);
            && |pushed| == |keys| && DistinctIdentities(pushed)
            && forall k :: k in pushed ==> k in keys
  {
    var rest := Without(keys, key.agentId, key.keyId);
    WithoutIsPart(keys, key.agentId, key.keyId);
    PushPermutes(keys, key);
    assert |multiset(Push(keys, key))| == |multiset(keys)|;
    assert forall k :: 0 <= k < |rest| ==> rest[k] in rest;
  }

  /** Moving the operator's entry to the end leaves a list that makes a record. */
  lemma PushedIsRecordable(c: Crypto, operator: Identity, state: State)
    requires Synced(c, state) && InControl(c, operator, state)
    ensures Recordable(c, state.policy.mode, Push(state.policy.keys, OperatorKey(c, operator)))
  {
    hide Replay, OperatorKey, Without, Leaf, Trim, PublicKeyBytes;
    var keys, own := state.policy.keys, OperatorKey(c, operator);
    PolicyKeysDistinct(c, state);
    SortedLeavesDistinct(c, keys);
    PushKeepsLeaves(c, keys, own);
    PushKeepsShape(c, keys, own);
    hide DistinctLeaves, DistinctIdentities, SortedByLeaf, Push;
    var pushed := Push(keys, own);
    assert forall k :: 0 <= k < |pushed| ==> pushed[k] in pushed;
  }

  lemma CommitAddsThought(c: Crypto, operator: Identity, state: State, mode: AccessMode, keys: seq<AllowedKey>,
                          hash: string)
    ensures var (after, committed) := CommitPolicy(c, operator, state, mode, keys, hash);
            committed.Ok? ==> |after.thoughts| == |state.thoughts| + 1
  {
  }

  /** Setting the mode the chain is already in is a no-op exactly when the operator's entry comes
      last in the policy's leaf order; otherwise it commits one more record of the same keys. */
  lemma RepeatedSetMode(c: Crypto, operator: Identity, state: State, hash: string)
    requires Genuine(c, operator) && Synced(c, state) && InControl(c, operator, state)
    ensures var (after, done) := ApplyOp(c, operator, state, SetMode(state.policy.mode, []), hash);
            var keys := state.policy.keys;
            if keys[|keys| - 1] == OperatorKey(c, operator) then after == state && done == Ok(false)
            else
              && done == Ok(true) && |after.thoughts| == |state.thoughts| + 1
              && after.policy.mode == state.policy.mode && multiset(after.policy.keys) == multiset(keys)
  {
    var keys, own := state.policy.keys, OperatorKey(c, operator);
    PolicyKeysDistinct(c, state);
    PushedIsRecordable(c, operator, state);
    hide *;
    SetModeAgain(c, operator, state, hash);
    PushPermutes(keys, own);
    if keys[|keys| - 1] == own {
      PushLast(keys, own);
    } else {
      PushEnds(keys, own);
      RecommitSucceeds(c, operator, state, hash);
    }
  }

  lemma PushLast(keys: seq<AllowedKey>, key: AllowedKey)
    requires keys != [] && keys[|keys| - 1] == key && DistinctIdentities(keys)
    ensures Push(keys, key) == keys
  {
    WithoutLast(keys, key);
  }

  lemma PushEnds(keys: seq<AllowedKey>, key: AllowedKey)
    requires multiset(Push(keys, key)) == multiset(keys)
    ensures |Push(keys, key)| == |keys| > 0 && Push(keys, key)[|keys| - 1] == key
  {
    assert |multiset(Push(keys, key))| == |multiset(keys)|;
  }

  /** The mode in force, asked for again with no keys: one more commit of the list with the operator's
      entry at the end, unless it is there already. */
  lemma SetModeAgain(c: Crypto, operator: Identity, state: State, hash: string)
    requires state.policy.seqNo.Some?
    ensures var pushed := Push(state.policy.keys, OperatorKey(c, operator));
            ApplyOp(c, operator, state, SetMode(state.policy.mode, []), hash) ==
            if state.policy.keys == pushed then (state, Ok(false))
            else Committing(c, operator, state, state.policy.mode, pushed, hash)
  {
    hide Committing, Push, OperatorKey;
    assert PushSpecs(c, Push(state.policy.keys, OperatorKey(c, operator)), []) ==
           Push(state.policy.keys, OperatorKey(c, operator));
    assert UpsertAll(c, state.registry, []) == (state.registry, Ok(()));
    assert state.(registry := state.registry) == state;
  }

  lemma RecommitSucceeds(c: Crypto, operator: Identity, state: State, hash: string)
    requires Genuine(c, operator) && Synced(c, state) && InControl(c, operator, state)
    requires var pushed := Push(state.policy.keys, OperatorKey(c, operator));
             Recordable(c, state.policy.mode, pushed) && pushed != []
    ensures var pushed := Push(state.policy.keys, OperatorKey(c, operator));
            var (after, done) := Committing(c, operator, state, state.policy.mode, pushed, hash);
            && done == Ok(true) && |after.thoughts| == |state.thoughts| + 1
            && after.policy.mode == state.policy.mode && multiset(after.policy.keys) == multiset(pushed)
  {
    hide CommitPolicy, Genuine, Synced, InControl, Recordable, Push, OperatorKey;
    var pushed := Push(state.policy.keys, OperatorKey(c, operator));
    CommitSucceedsIff(c, operator, state, state.policy.mode, pushed, hash);
    CommitKeys(c, operator, state, state.policy.mode, pushed, hash);
    CommitAddsThought(c, operator, state, state.policy.mode, pushed, hash);
  }
}
