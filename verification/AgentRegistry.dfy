/** What operator commands do to the registry of agent keys: a revoked key is never usable again. */
module AgentRegistry {
  import opened Wrappers
  import opened Text
  import opened Access
  import opened Operator
  import opened OperatorSafety
  import ReadAuth

  // ----- Labels

  lemma {:induction false} Utf8LenIs(s: string)
    ensures Utf8Len(s) == |ReadAuth.Utf8(s)|
  {
    if s != [] {
      Utf8LenIs(s[1..]);
    }
  }

  /** Which agent and key ids are labels: their length counts in UTF-8, and no control character may occur. */
  lemma LabelIff(s: string)
    ensures IsLabel(s) <==>
            && Trim(s) != "" && |ReadAuth.Utf8(s)| <= 256
            && forall k :: 0 <= k < |s| ==> !(s[k] < ' ' || '\U{7E}' < s[k] < '\U{A0}')
  {
    Utf8LenIs(s);
    hide Trim, Utf8Len, ReadAuth.Utf8;
  }

  // ----- One key list

  lemma {:induction false} RevokeInFinds(keys: seq<AgentKey>, revoked: string, keyId: string)
    ensures FindAgentKey(keys, keyId).Some? ==> FindAgentKey(keys, keyId).value.keyId == keyId
    ensures var before, after := FindAgentKey(keys, keyId), FindAgentKey(RevokeIn(keys, revoked), keyId);
            if keyId == revoked && before.Some? then after == Some(AgentKey(keyId, before.value.bytes, true))
            else after == before
  {
    if keys != [] && keys[0].keyId != revoked {
      RevokeInFinds(keys[1..], revoked, keyId);
      assert RevokeIn(keys, revoked)[1..] == RevokeIn(keys[1..], revoked);
    }
    if keys != [] && keys[0].keyId == revoked {
      assert RevokeIn(keys, revoked)[1..] == keys[1..];
      if keyId != revoked {
        RevokeInFinds(keys[1..], revoked, keyId);
      }
    }
  }

  /** Only the key `keyId` of `agentId` may differ: every other key and every agent's standing is as before. */
  ghost predicate OthersKept(before: Registry, after: Registry, agentId: string, keyId: string) {
    && after.Keys == before.Keys + {agentId}
    && (forall a :: AgentOf(after, a).active == AgentOf(before, a).active)
    && forall a, k :: (a != agentId || k != keyId) ==> Lookup(after, a, k) == Lookup(before, a, k)
  }

  // ----- Registering and revoking

  /** A spec whose ids are labels and whose key decodes to a usable one. */
  ghost predicate Usable(c: Crypto, spec: KeySpec) {
    && IsLabel(spec.agentId) && IsLabel(spec.keyId)
    && c.fromHex(spec.publicKey).Some? && c.validKey(c.fromHex(spec.publicKey).value)
  }

  /** A key is registered exactly when it is usable and its ids are free, or hold this very key, not revoked. */
  lemma UpsertAdds(c: Crypto, registry: Registry, spec: KeySpec)
    ensures var agentId, keyId, done := Trim(spec.agentId), Trim(spec.keyId), UpsertKey(c, registry, spec);
            var known := Lookup(registry, agentId, keyId);
            && (done.Ok? <==>
               && Usable(c, spec)
               && (known.Some? ==>
                  known.value.bytes == c.fromHex(spec.publicKey).value && !known.value.revoked))
            && (done.Ok? ==>
                  && Lookup(done.value, agentId, keyId) ==
                     Some(AgentKey(keyId, c.fromHex(spec.publicKey).value, false))
                  && OthersKept(registry, done.value, agentId, keyId))
  {
    hide Trim, IsLabel;
    var agentId, keyId := Trim(spec.agentId), Trim(spec.keyId);
    RevokeInFinds(AgentOf(registry, agentId).keys, keyId, keyId);
    if SpecBytes(c, spec).Some? {
      forall k
        ensures FindAgentKey(AgentOf(registry, agentId).keys + [AgentKey(keyId, SpecBytes(c, spec).value, false)], k) ==
                if FindAgentKey(AgentOf(registry, agentId).keys, k).Some? then
                  FindAgentKey(AgentOf(registry, agentId).keys, k)
                else if k == keyId then Some(AgentKey(keyId, SpecBytes(c, spec).value, false)) else None
      {
        FindAppended(AgentOf(registry, agentId).keys, [AgentKey(keyId, SpecBytes(c, spec).value, false)], k);
      }
      hide FindAgentKey;
    }
  }

  /** Revoking succeeds exactly for a registered key that is not the operator's own; it marks that key alone. */
  lemma RevokeKeyRevokes(c: Crypto, operator: Identity, state: State, agentId: string, keyId: string, hash: string)
    ensures var (after, done) := ApplyOp(c, operator, state, RevokeKey(agentId, keyId), hash);
            var known := Lookup(state.registry, Trim(agentId), Trim(keyId));
            && (done == Ok(true) <==>
               && IsLabel(agentId) && IsLabel(keyId) && !(agentId == OPERATOR_AGENT_ID && keyId == operator.keyId)
               && known.Some?)
            && (done == Ok(true) ==>
                  && after == state.(registry := after.registry)
                  && Lookup(after.registry, Trim(agentId), Trim(keyId)) ==
                     Some(AgentKey(Trim(keyId), known.value.bytes, true))
                  && OthersKept(state.registry, after.registry, Trim(agentId), Trim(keyId)))
            && (done != Ok(true) ==> done.Err? && after == state)
  {
    hide Trim, IsLabel, RevokeIn;
    var keys := AgentOf(state.registry, Trim(agentId)).keys;
    forall k
      ensures FindAgentKey(RevokeIn(keys, Trim(keyId)), k) ==
              if k == Trim(keyId) && FindAgentKey(keys, k).Some? then
                Some(AgentKey(k, FindAgentKey(keys, k).value.bytes, true))
              else FindAgentKey(keys, k)
    {
      RevokeInFinds(keys, Trim(keyId), k);
    }
    assert FindAgentKey([], Trim(keyId)) == None;
    hide FindAgentKey;
  }

  /** Disabling and enabling set the standing of exactly that agent and touch no key. */
  lemma StandingChanges(c: Crypto, operator: Identity, state: State, agentId: string, hash: string)
    ensures var (after, done) := ApplyOp(c, operator, state, DisableAgent(agentId), hash);
            && (done == Ok(true) <==>
               IsLabel(agentId) && agentId != OPERATOR_AGENT_ID && Trim(agentId) in state.registry)
            && (done == Ok(true) ==> StandsAlone(state, after, Trim(agentId), false))
            && (done != Ok(true) ==> done.Err? && after == state)
    ensures var (after, done) := ApplyOp(c, operator, state, EnableAgent(agentId), hash);
            && (done == Ok(true) <==> Trim(agentId) != "")
            && (done == Ok(true) ==> StandsAlone(state, after, Trim(agentId), true))
            && (done != Ok(true) ==> done.Err? && after == state)
  {
    hide Trim, IsLabel;
  }

  /** The registry differs in the standing of `agentId` alone. */
  ghost predicate StandsAlone(before: State, after: State, agentId: string, active: bool) {
    && after == before.(registry := after.registry)
    && agentId in after.registry && AgentOf(after.registry, agentId).active == active
    && after.registry.Keys == before.registry.Keys + {agentId}
    && (forall a :: a != agentId ==> AgentOf(after.registry, a) == AgentOf(before.registry, a))
    && forall a, k :: Lookup(after.registry, a, k) == Lookup(before.registry, a, k)
  }

  // ----- A revoked key stays revoked

  ghost predicate IsRevoked(registry: Registry, agentId: string, keyId: string, bytes: Bytes) {
    Lookup(registry, agentId, keyId) == Some(AgentKey(keyId, bytes, true))
  }

  lemma UpsertKeepsRevoked(c: Crypto, registry: Registry, spec: KeySpec, agentId: string, keyId: string, bytes: Bytes)
    requires IsRevoked(registry, agentId, keyId, bytes)
    ensures UpsertKey(c, registry, spec).Ok? ==>
              && IsRevoked(UpsertKey(c, registry, spec).value, agentId, keyId, bytes)
              && !(Trim(spec.agentId) == agentId && Trim(spec.keyId) == keyId)
  {
    UpsertAdds(c, registry, spec);
    hide UpsertKey, Trim, Lookup, Usable;
  }

  lemma {:induction false} UpsertAllKeepsRevoked(c: Crypto, registry: Registry, specs: seq<KeySpec>, agentId: string,
                                                 keyId: string, bytes: Bytes)
    requires IsRevoked(registry, agentId, keyId, bytes)
    ensures var (after, done) := UpsertAll(c, registry, specs);
            && IsRevoked(after, agentId, keyId, bytes)
            && (done.Ok? ==>
                  forall k :: 0 <= k < |specs| ==>
                    !(Trim(specs[k].agentId) == agentId && Trim(specs[k].keyId) == keyId))
    decreases |specs|
  {
    hide UpsertKey, IsRevoked, Trim;
    if specs != [] {
      UpsertKeepsRevoked(c, registry, specs[0], agentId, keyId, bytes);
      var first := UpsertKey(c, registry, specs[0]);
      if first.Ok? {
        UpsertAllKeepsRevoked(c, first.value, specs[1..], agentId, keyId, bytes);
        assert specs == [specs[0]] + specs[1..];
      }
    }
  }

  lemma CommitKeepsRevoked(c: Crypto, operator: Identity, state: State, mode: AccessMode, keys: seq<AllowedKey>,
                           hash: string, agentId: string, keyId: string, bytes: Bytes)
    requires IsRevoked(state.registry, agentId, keyId, bytes)
    ensures IsRevoked(Committing(c, operator, state, mode, keys, hash).0.registry, agentId, keyId, bytes)
  {
    hide NextRecord, CheckThought, RecordThought;
    var known := AgentOf(state.registry, OPERATOR_AGENT_ID).keys;
    FindAppended(known, [AgentKey(operator.keyId, operator.publicKey, false)], keyId);
  }

  lemma ApplyKeepsRevoked(c: Crypto, operator: Identity, state: State, op: Op, hash: string, agentId: string,
                          keyId: string, bytes: Bytes)
    requires IsRevoked(state.registry, agentId, keyId, bytes)
    ensures IsRevoked(ApplyOp(c, operator, state, op, hash).0.registry, agentId, keyId, bytes)
  {
    hide Committing, UpsertKey, UpsertAll, SpecBytes, Without, PushSpecs, Push, OperatorKey, IsLabel, Trim, IsRevoked;
    var policy := state.policy;
    match op
    case SetMode(mode, specs) =>
      UpsertAllKeepsRevoked(c, state.registry, specs, agentId, keyId, bytes);
      CommitKeepsRevoked(c, operator, state.(registry := UpsertAll(c, state.registry, specs).0), mode,
                         PushSpecs(c, Push(policy.keys, OperatorKey(c, operator)), specs), hash, agentId, keyId, bytes);
    case AllowKey(spec) =>
      UpsertKeepsRevoked(c, state.registry, spec, agentId, keyId, bytes);
      if UpsertKey(c, state.registry, spec).Ok? {
        UpsertDecodes(c, state.registry, spec);
        var entry := AllowedKeyOf(c, spec.agentId, spec.keyId, SpecBytes(c, spec).value);
        CommitKeepsRevoked(c, operator, state.(registry := UpsertKey(c, state.registry, spec).value), policy.mode,
                           Without(policy.keys, spec.agentId, spec.keyId) + [entry], hash, agentId, keyId, bytes);
      }
    case DenyKey(a, k) =>
      CommitKeepsRevoked(c, operator, state, policy.mode, Without(policy.keys, a, k), hash, agentId, keyId, bytes);
    case RegisterKey(spec) => UpsertKeepsRevoked(c, state.registry, spec, agentId, keyId, bytes);
    case RevokeKey(a, k) =>
      RevokeKeyRevokes(c, operator, state, a, k, hash);
      RevokedAgain(state.registry, ApplyOp(c, operator, state, op, hash).0.registry, Trim(a), Trim(k), agentId, keyId,
        bytes);
    case DisableAgent(a) => StandingKeepsRevoked(c, operator, state, a, hash, agentId, keyId, bytes);
    case EnableAgent(a) => StandingKeepsRevoked(c, operator, state, a, hash, agentId, keyId, bytes);
    case Show =>
  }

  lemma StandingKeepsRevoked(c: Crypto, operator: Identity, state: State, a: string, hash: string, agentId: string,
                             keyId: string, bytes: Bytes)
    requires IsRevoked(state.registry, agentId, keyId, bytes)
    ensures IsRevoked(ApplyOp(c, operator, state, DisableAgent(a), hash).0.registry, agentId, keyId, bytes)
    ensures IsRevoked(ApplyOp(c, operator, state, EnableAgent(a), hash).0.registry, agentId, keyId, bytes)
  {
    StandingChanges(c, operator, state, a, hash);
    hide ApplyOp, Lookup, Trim, IsLabel;
  }

  lemma RevokedAgain(before: Registry, after: Registry, a: string, k: string, agentId: string, keyId: string,
                     bytes: Bytes)
    requires IsRevoked(before, agentId, keyId, bytes)
    requires after == before || (OthersKept(before, after, a, k) && Lookup(before, a, k).Some? &&
               Lookup(after, a, k) == Some(AgentKey(k, Lookup(before, a, k).value.bytes, true)))
    ensures IsRevoked(after, agentId, keyId, bytes)
  {
    hide Lookup;
  }

  /** A command that would bring the key `keyId` of `agentId` in. */
  ghost predicate BringsIn(op: Op, agentId: string, keyId: string) {
    match op
    case RegisterKey(spec) => Trim(spec.agentId) == agentId && Trim(spec.keyId) == keyId
    case AllowKey(spec) => Trim(spec.agentId) == agentId && Trim(spec.keyId) == keyId
    case SetMode(_, specs) =>
      exists k :: 0 <= k < |specs| && Trim(specs[k].agentId) == agentId && Trim(specs[k].keyId) == keyId
    case _ => false
  }

  /** Every command that would bring a revoked key in again fails and leaves chain and policy alone. */
  lemma RevokedIsRefused(c: Crypto, operator: Identity, state: State, op: Op, hash: string, agentId: string,
                         keyId: string, bytes: Bytes)
    requires IsRevoked(state.registry, agentId, keyId, bytes) && BringsIn(op, agentId, keyId)
    ensures var (after, done) := ApplyOp(c, operator, state, op, hash);
            done.Err? && after.policy == state.policy && after.thoughts == state.thoughts
  {
    hide Committing, UpsertKey, UpsertAll, SpecBytes, Without, PushSpecs, Push, OperatorKey, IsLabel, Trim, IsRevoked;
    match op
    case SetMode(_, specs) =>
      UpsertAllKeepsRevoked(c, state.registry, specs, agentId, keyId, bytes);
      var k :| 0 <= k < |specs| && Trim(specs[k].agentId) == agentId && Trim(specs[k].keyId) == keyId;
      assert UpsertAll(c, state.registry, specs).1.Err?;
    case AllowKey(spec) => UpsertKeepsRevoked(c, state.registry, spec, agentId, keyId, bytes);
    case RegisterKey(spec) => UpsertKeepsRevoked(c, state.registry, spec, agentId, keyId, bytes);
  }

  lemma {:induction false} RunKeepsRevoked(c: Crypto, operator: Identity, state: State, commands: seq<Command>,
                                           agentId: string, keyId: string, bytes: Bytes)
    requires IsRevoked(state.registry, agentId, keyId, bytes)
    ensures IsRevoked(Run(c, operator, state, commands).registry, agentId, keyId, bytes)
  {
    hide IsRevoked, ApplyOp;
    if commands != [] {
      var last := commands[|commands| - 1];
      RunKeepsRevoked(c, operator, state, commands[..|commands| - 1], agentId, keyId, bytes);
      ApplyKeepsRevoked(c, operator, Run(c, operator, state, commands[..|commands| - 1]), last.op, last.hash, agentId,
                        keyId, bytes);
    }
  }

  /** Once a key was revoked, it is revoked after every run of commands, and no command brings it in again. */
  lemma RevokedForGood(c: Crypto, operator: Identity, state: State, agentId: string, keyId: string, hash: string,
                       commands: seq<Command>, op: Op, nextHash: string)
    requires ApplyOp(c, operator, state, RevokeKey(agentId, keyId), hash).1 == Ok(true)
    requires BringsIn(op, Trim(agentId), Trim(keyId))
    ensures var later := Run(c, operator, ApplyOp(c, operator, state, RevokeKey(agentId, keyId), hash).0, commands);
            var (after, done) := ApplyOp(c, operator, later, op, nextHash);
            && Lookup(later.registry, Trim(agentId), Trim(keyId)).Some?
            && Lookup(later.registry, Trim(agentId), Trim(keyId)).value.revoked
            && done.Err? && after.policy == later.policy && after.thoughts == later.thoughts
  {
    RevokeKeyRevokes(c, operator, state, agentId, keyId, hash);
    var bytes := Lookup(state.registry, Trim(agentId), Trim(keyId)).value.bytes;
    var revoked := ApplyOp(c, operator, state, RevokeKey(agentId, keyId), hash).0;
    assert IsRevoked(revoked.registry, Trim(agentId), Trim(keyId), bytes);
    hide ApplyOp, Lookup, Run, Trim, IsLabel, BringsIn, OthersKept;
    RunKeepsRevoked(c, operator, revoked, commands, Trim(agentId), Trim(keyId), bytes);
    RevokedIsRefused(c, operator, Run(c, operator, revoked, commands), op, nextHash, Trim(agentId), Trim(keyId), bytes);
  }
}
