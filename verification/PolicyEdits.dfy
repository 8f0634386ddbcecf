/** Which keys a policy lists after an operator command. */
module PolicyEdits {
  import opened Wrappers
  import opened Text
  import opened Access
  import opened Operator
  import opened OperatorSafety

  /** `key` is the policy entry for a usable spec. */
  ghost predicate IsEntryOf(c: Crypto, key: AllowedKey, spec: KeySpec) {
    && c.fromHex(spec.publicKey).Some?
    && key == AllowedKey(Trim(spec.agentId), Trim(spec.keyId), c.toHex(c.fromHex(spec.publicKey).value))
  }

  predicate HasIds(key: AllowedKey, agentId: string, keyId: string) {
    key.agentId == agentId && key.keyId == keyId
  }

  /** After a change that went through the policy lists exactly the keys it was given, in the mode asked for; any
      other outcome leaves chain and policy as they were. */
  lemma CommittingLists(c: Crypto, operator: Identity, state: State, mode: AccessMode, keys: seq<AllowedKey>,
                        hash: string, key: AllowedKey)
    ensures var (after, done) := Committing(c, operator, state, mode, keys, hash);
            if done == Ok(true) then after.policy.mode == mode && (key in after.policy.keys <==> key in keys)
            else done.Err? && after.policy == state.policy && after.thoughts == state.thoughts
  {
    CommitKeys(c, operator, state, mode, keys, hash);
    hide CommitPolicy;
    var after := Committing(c, operator, state, mode, keys, hash).0;
    assert key in keys <==> key in multiset(keys);
    assert key in after.policy.keys <==> key in multiset(after.policy.keys);
  }

  /** Denying a key takes exactly its entry off the policy. */
  lemma DenyKeyDrops(c: Crypto, operator: Identity, state: State, agentId: string, keyId: string, hash: string,
                     key: AllowedKey)
    ensures var (after, done) := ApplyOp(c, operator, state, DenyKey(agentId, keyId), hash);
            if done == Ok(true) then
              && after.policy.mode == state.policy.mode
              && (exists k :: k in state.policy.keys && HasIds(k, agentId, keyId))
              && (key in after.policy.keys <==> key in state.policy.keys && !HasIds(key, agentId, keyId))
            else done.Err? && after.policy == state.policy && after.thoughts == state.thoughts
  {
    WithoutKeeps(state.policy.keys, agentId, keyId, key);
    WithoutAll(state.policy.keys, agentId, keyId);
    CommittingLists(c, operator, state, state.policy.mode, Without(state.policy.keys, agentId, keyId), hash, key);
    hide Committing, Without, IsLabel, OperatorKey;
  }

  lemma {:induction false} WithoutAll(keys: seq<AllowedKey>, agentId: string, keyId: string)
    ensures (forall k :: k in keys ==> !HasIds(k, agentId, keyId)) ==> Without(keys, agentId, keyId) == keys
  {
    if keys != [] && forall k :: k in keys ==> !HasIds(k, agentId, keyId) {
      assert keys[0] in keys && forall k :: k in keys[1..] ==> k in keys;
      WithoutAll(keys[1..], agentId, keyId);
    }
  }

  /** Allowing a key lists its entry and drops the one under the ids as they were given. */
  lemma AllowKeyLists(c: Crypto, operator: Identity, state: State, spec: KeySpec, hash: string, key: AllowedKey)
    ensures var (after, done) := ApplyOp(c, operator, state, AllowKey(spec), hash);
            if done == Ok(true) then
              && after.policy.mode == state.policy.mode
              && (key in after.policy.keys <==>
                  IsEntryOf(c, key, spec) || (key in state.policy.keys && !HasIds(key, spec.agentId, spec.keyId)))
            else
              && after.policy == state.policy && after.thoughts == state.thoughts
              && (done.Ok? ==> exists k :: k in state.policy.keys && IsEntryOf(c, k, spec))
    ensures state.policy.seqNo.None? ==>
              var (after, done) := ApplyOp(c, operator, state, AllowKey(spec), hash); done.Err? && after == state
  {
    hide Committing, Without, UpsertKey, Trim, IsLabel;
    if UpsertKey(c, state.registry, spec).Ok? {
      UpsertDecodes(c, state.registry, spec);
      var entry := AllowedKeyOf(c, spec.agentId, spec.keyId, SpecBytes(c, spec).value);
      assert IsEntryOf(c, entry, spec);
      WithoutKeeps(state.policy.keys, spec.agentId, spec.keyId, key);
      CommittingLists(c, operator, state.(registry := UpsertKey(c, state.registry, spec).value), state.policy.mode,
                      Without(state.policy.keys, spec.agentId, spec.keyId) + [entry], hash, key);
    }
  }

  /** The last spec with these ids is the one at `i`. */
  ghost predicate LastSpec(specs: seq<KeySpec>, i: nat, agentId: string, keyId: string) {
    && i < |specs| && Trim(specs[i].agentId) == agentId && Trim(specs[i].keyId) == keyId
    && forall j :: i < j < |specs| ==> !(Trim(specs[j].agentId) == agentId && Trim(specs[j].keyId) == keyId)
  }

  ghost predicate Specified(specs: seq<KeySpec>, agentId: string, keyId: string) {
    exists i :: 0 <= i < |specs| && Trim(specs[i].agentId) == agentId && Trim(specs[i].keyId) == keyId
  }

  /** A list with specs pushed on: the last spec of every identity, and what was listed under no spec's. */
  ghost predicate PushedTo(c: Crypto, keys: seq<AllowedKey>, specs: seq<KeySpec>, key: AllowedKey) {
    || (key in keys && !Specified(specs, key.agentId, key.keyId))
    || exists i: nat :: LastSpec(specs, i, key.agentId, key.keyId) && IsEntryOf(c, key, specs[i])
  }

  lemma PushLists(keys: seq<AllowedKey>, pushed: AllowedKey, key: AllowedKey)
    ensures key in Push(keys, pushed) <==>
            key == pushed || (key in keys && !HasIds(key, pushed.agentId, pushed.keyId))
  {
    WithoutKeeps(keys, pushed.agentId, pushed.keyId, key);
  }

  lemma {:induction false} PushSpecsList(c: Crypto, keys: seq<AllowedKey>, specs: seq<KeySpec>, key: AllowedKey)
    requires forall k :: 0 <= k < |specs| ==> SpecBytes(c, specs[k]).Some?
    ensures key in PushSpecs(c, keys, specs) <==> PushedTo(c, keys, specs, key)
  {
    hide Trim, IsLabel, Push;
    if specs != [] {
      var before, last := specs[..|specs| - 1], specs[|specs| - 1];
      PushSpecsList(c, keys, before, key);
      var entry := AllowedKeyOf(c, last.agentId, last.keyId, SpecBytes(c, last).value);
      PushLists(PushSpecs(c, keys, before), entry, key);
      OneMoreSpec(c, keys, before, last, key);
      assert specs == before + [last];
    }
  }

  lemma OneMoreSpec(c: Crypto, keys: seq<AllowedKey>, before: seq<KeySpec>, last: KeySpec, key: AllowedKey)
    ensures PushedTo(c, keys, before + [last], key) <==>
            if HasIds(key, Trim(last.agentId), Trim(last.keyId)) then IsEntryOf(c, key, last)
            else PushedTo(c, keys, before, key)
  {
    hide Trim, IsEntryOf;
    var specs, n := before + [last], |before|;
    assert specs[n] == last && forall i :: 0 <= i < n ==> specs[i] == before[i];
    if HasIds(key, Trim(last.agentId), Trim(last.keyId)) {
      assert forall i: nat :: LastSpec(specs, i, key.agentId, key.keyId) <==> i == n;
    } else {
      assert forall i: nat :: LastSpec(specs, i, key.agentId, key.keyId) <==>
                              LastSpec(before, i, key.agentId, key.keyId);
      assert Specified(specs, key.agentId, key.keyId) <==> Specified(before, key.agentId, key.keyId);
    }
  }

  /** A mode change that goes through lists the operator's key, the given ones, and what was listed under other
      ids; when ids are given more than once, the last key counts. */
  lemma SetModeLists(c: Crypto, operator: Identity, state: State, mode: AccessMode, specs: seq<KeySpec>, hash: string,
                     key: AllowedKey)
    ensures var (after, done) := ApplyOp(c, operator, state, SetMode(mode, specs), hash);
            if done == Ok(true) then
              var own := AllowedKey(Trim(OPERATOR_AGENT_ID), Trim(operator.keyId), c.toHex(operator.publicKey));
              && after.policy.mode == mode
              && (key in after.policy.keys <==>
                  || (exists i: nat :: LastSpec(specs, i, key.agentId, key.keyId) && IsEntryOf(c, key, specs[i]))
                  || (!Specified(specs, key.agentId, key.keyId) &&
                      (key == own || (key in state.policy.keys && !HasIds(key, own.agentId, own.keyId)))))
            else
              && after.policy == state.policy && after.thoughts == state.thoughts
              && (done == Ok(false) ==> state.policy.mode == mode || (state.policy.seqNo.None? && mode == Open))
    ensures state.policy.seqNo.None? && mode == Open ==>
              ApplyOp(c, operator, state, SetMode(mode, specs), hash).1 != Ok(true)
  {
    hide Committing, UpsertAll, PushSpecs, Push, Trim, LastSpec, IsEntryOf, Specified;
    var own := OperatorKey(c, operator);
    var (registry, done) := UpsertAll(c, state.registry, specs);
    if done.Ok? {
      UpsertAllDecodes(c, state.registry, specs);
      PushSpecsList(c, Push(state.policy.keys, own), specs, key);
      PushLists(state.policy.keys, own, key);
      CommittingLists(c, operator, state.(registry := registry), mode,
        PushSpecs(c, Push(state.policy.keys, own), specs),
                      hash, key);
    }
  }

  lemma {:induction false} UpsertAllDecodes(c: Crypto, registry: Registry, specs: seq<KeySpec>)
    requires UpsertAll(c, registry, specs).1.Ok?
    ensures forall k :: 0 <= k < |specs| ==> SpecBytes(c, specs[k]).Some?
    decreases |specs|
  {
    hide UpsertKey, SpecBytes;
    if specs != [] {
      UpsertDecodes(c, registry, specs[0]);
      UpsertAllDecodes(c, UpsertKey(c, registry, specs[0]).value, specs[1..]);
      assert specs == [specs[0]] + specs[1..];
    }
  }
}
