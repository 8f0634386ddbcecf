/** What operator commands keep: the operator's control of the chain, and a policy that a replay gives again. */
module OperatorSafety {
  import opened Wrappers
  import opened Text
  import opened Access
  import opened PolicyReplay
  import opened Operator

  /** The operator's key is usable and its signatures verify. */
  ghost predicate Genuine(c: Crypto, operator: Identity) {
    && c.fromHex(c.toHex(operator.publicKey)) == Some(operator.publicKey)
    && c.validKey(operator.publicKey)
    && Trim(operator.keyId) == operator.keyId != ""
    && forall payload :: SignsAndVerifies(c, operator, payload)
  }

  ghost predicate SignsAndVerifies(c: Crypto, operator: Identity, payload: Bytes) {
    var stored := c.parseSignature(operator.signV2(payload));
    stored.Some? && stored.value.version == V2 && c.verify(operator.publicKey, payload, stored.value.signature)
  }

  /** The policy in force is the replay of what is stored. */
  ghost predicate Synced(c: Crypto, state: State) {
    state.policy == Replay(c, state.thoughts)
  }

  ghost predicate InControl(c: Crypto, operator: Identity, state: State) {
    OperatorKey(c, operator) in state.policy.keys
  }

  /** The registry holds the operator's key id, for the operator's own key or a revoked one:
      no other key can be registered under it any more. */
  ghost predicate Sealed(operator: Identity, registry: Registry) {
    var key := Lookup(registry, OPERATOR_AGENT_ID, operator.keyId);
    key.Some? && (key.value.bytes == operator.publicKey || key.value.revoked)
  }

  /** `spec` names the operator's agent and key id but holds another key. */
  ghost predicate Impersonates(c: Crypto, operator: Identity, spec: KeySpec) {
    && Trim(spec.agentId) == OPERATOR_AGENT_ID && Trim(spec.keyId) == operator.keyId
    && SpecBytes(c, spec).Some? && SpecBytes(c, spec).value != operator.publicKey
  }

  ghost predicate NamesImpersonator(c: Crypto, operator: Identity, op: Op) {
    match op
    case SetMode(_, specs) => exists k :: 0 <= k < |specs| && Impersonates(c, operator, specs[k])
    case AllowKey(spec) => Impersonates(c, operator, spec)
    case _ => false
  }

  /** Either reason why no key can take the operator's place. */
  ghost predicate Protected(c: Crypto, operator: Identity, state: State, op: Op) {
    Sealed(operator, state.registry) || !NamesImpersonator(c, operator, op)
  }

  // ----- Trimming

  lemma OperatorAgentTrimmed()
    ensures Trim(OPERATOR_AGENT_ID) == OPERATOR_AGENT_ID
  {
    assert OPERATOR_AGENT_ID[0] == 'm' && OPERATOR_AGENT_ID[|OPERATOR_AGENT_ID| - 1] == 'r';
  }

  lemma OperatorKeyFields(c: Crypto, operator: Identity)
    requires Genuine(c, operator)
    ensures var key := OperatorKey(c, operator);
            && key.agentId == OPERATOR_AGENT_ID && key.keyId == operator.keyId
            && PublicKeyBytes(c, key) == Some(operator.publicKey)
  {
    OperatorAgentTrimmed();
  }

  // ----- The registry seal survives every command

  lemma {:induction false} FindAppended(keys: seq<AgentKey>, more: seq<AgentKey>, keyId: string)
    ensures FindAgentKey(keys + more, keyId) ==
            if FindAgentKey(keys, keyId).Some? then FindAgentKey(keys, keyId) else FindAgentKey(more, keyId)
  {
    if keys == [] {
      assert keys + more == more;
    } else {
      FindAppended(keys[1..], more, keyId);
      assert (keys + more)[1..] == keys[1..] + more;
    }
  }

  lemma {:induction false} FindRevoked(keys: seq<AgentKey>, revoked: string, keyId: string)
    ensures FindAgentKey(RevokeIn(keys, revoked), keyId).Some? <==> FindAgentKey(keys, keyId).Some?
    ensures FindAgentKey(keys, keyId).Some? ==>
              var before, after := FindAgentKey(keys, keyId).value, FindAgentKey(RevokeIn(keys, revoked), keyId).value;
              after.bytes == before.bytes && (before.revoked ==> after.revoked)
  {
    if keys != [] && keys[0].keyId != revoked {
      FindRevoked(keys[1..], revoked, keyId);
      assert RevokeIn(keys, revoked)[1..] == RevokeIn(keys[1..], revoked);
    }
  }

  lemma UpsertKeepsSealed(c: Crypto, operator: Identity, registry: Registry, spec: KeySpec)
    requires Sealed(operator, registry)
    ensures var after := UpsertKey(c, registry, spec);
            && (after.Ok? ==> Sealed(operator, after.value) && !Impersonates(c, operator, spec))
  {
    var after := UpsertKey(c, registry, spec);
    if after.Ok? {
      var agent := AgentOf(registry, Trim(spec.agentId));
      FindAppended(agent.keys, [AgentKey(Trim(spec.keyId), SpecBytes(c, spec).value, false)], operator.keyId);
    }
  }

  lemma UpsertDecodes(c: Crypto, registry: Registry, spec: KeySpec)
    ensures UpsertKey(c, registry, spec).Ok? ==> SpecBytes(c, spec).Some?
  {
  }

  lemma {:induction false} UpsertAllKeepsSealed(c: Crypto, operator: Identity, registry: Registry, specs: seq<KeySpec>)
    requires Sealed(operator, registry)
    ensures var (after, done) := UpsertAll(c, registry, specs);
            && Sealed(operator, after)
            && (done.Ok? ==> forall k :: 0 <= k < |specs| ==> !Impersonates(c, operator, specs[k]))
    decreases |specs|
  {
    hide UpsertKey, Sealed, Impersonates;
    if specs != [] {
      UpsertKeepsSealed(c, operator, registry, specs[0]);
      var first := UpsertKey(c, registry, specs[0]);
      if first.Ok? {
        UpsertAllKeepsSealed(c, operator, first.value, specs[1..]);
        assert specs == [specs[0]] + specs[1..];
      }
    }
  }

  lemma CommitKeepsSealed(c: Crypto, operator: Identity, state: State, hash: string)
    requires Sealed(operator, state.registry)
    ensures forall mode, keys :: Sealed(operator, CommitPolicy(c, operator, state, mode, keys, hash).0.registry)
  {
  }

  /** No command unseals the operator's key id. */
  lemma ApplyKeepsSealed(c: Crypto, operator: Identity, state: State, op: Op, hash: string)
    requires Sealed(operator, state.registry)
    ensures Sealed(operator, ApplyOp(c, operator, state, op, hash).0.registry)
  {
    hide CommitPolicy, EnsureRegistered, UpsertKey, UpsertAll, SpecBytes, Trim, IsLabel, Without, PushSpecs;
    match op
    case SetMode(_, specs) =>
      UpsertAllKeepsSealed(c, operator, state.registry, specs);
      CommitKeepsSealed(c, operator, state.(registry := UpsertAll(c, state.registry, specs).0), hash);
    case AllowKey(spec) =>
      UpsertKeepsSealed(c, operator, state.registry, spec);
      if UpsertKey(c, state.registry, spec).Ok? {
        CommitKeepsSealed(c, operator, state.(registry := UpsertKey(c, state.registry, spec).value), hash);
      }
    case RegisterKey(spec) => UpsertKeepsSealed(c, operator, state.registry, spec);
    case DenyKey(_, _) => CommitKeepsSealed(c, operator, state, hash);
    case RevokeKey(agentId, keyId) =>
      FindRevoked(AgentOf(state.registry, Trim(agentId)).keys, Trim(keyId), operator.keyId);
    case _ =>
  }

  // ----- The operator's entry survives every list edit

  lemma {:induction false} WithoutKeeps(keys: seq<AllowedKey>, agentId: string, keyId: string, key: AllowedKey)
    ensures key in Without(keys, agentId, keyId) <==> key in keys && !(key.agentId == agentId && key.keyId == keyId)
  {
    if keys != [] {
      WithoutKeeps(keys[1..], agentId, keyId, key);
      assert keys == [keys[0]] + keys[1..];
    }
  }

  /** Pushing an entry keeps the operator's, unless it takes its identity with another key. */
  lemma PushKeeps(c: Crypto, operator: Identity, keys: seq<AllowedKey>, spec: KeySpec)
    requires Genuine(c, operator) && OperatorKey(c, operator) in keys
    requires SpecBytes(c, spec).Some? && !Impersonates(c, operator, spec)
    ensures OperatorKey(c, operator) in
            Push(keys, AllowedKeyOf(c, spec.agentId, spec.keyId, SpecBytes(c, spec).value))
  {
    OperatorKeyFields(c, operator);
    var key := AllowedKeyOf(c, spec.agentId, spec.keyId, SpecBytes(c, spec).value);
    WithoutKeeps(keys, key.agentId, key.keyId, OperatorKey(c, operator));
  }

  lemma {:induction false} PushSpecsKeeps(c: Crypto, operator: Identity, keys: seq<AllowedKey>, specs: seq<KeySpec>)
    requires Genuine(c, operator) && OperatorKey(c, operator) in keys
    requires forall k :: 0 <= k < |specs| ==> !Impersonates(c, operator, specs[k])
    ensures OperatorKey(c, operator) in PushSpecs(c, keys, specs)
  {
    hide Genuine, Impersonates;
    if specs != [] {
      var last := specs[|specs| - 1];
      PushSpecsKeeps(c, operator, keys, specs[..|specs| - 1]);
      if SpecBytes(c, last).Some? {
        PushKeeps(c, operator, PushSpecs(c, keys, specs[..|specs| - 1]), last);
      }
    }
  }

  /** A committed policy holds exactly the entries it was given. */
  lemma CommitKeys(c: Crypto, operator: Identity, state: State, mode: AccessMode, keys: seq<AllowedKey>, hash: string)
    ensures var (after, committed) := CommitPolicy(c, operator, state, mode, keys, hash);
            if committed.Ok? then
              && multiset(after.policy.keys) == multiset(keys) && after.policy.mode == mode
              && after.policy.seqNo.Some?
            else after.policy == state.policy && after.thoughts == state.thoughts
  {
    NextRecordIff(c, state.policy, mode, keys);
  }

  lemma CommitKeepsKey(c: Crypto, operator: Identity, state: State, mode: AccessMode, keys: seq<AllowedKey>,
                       hash: string)
    requires OperatorKey(c, operator) in keys
    requires InControl(c, operator, state) || CommitPolicy(c, operator, state, mode, keys, hash).1.Ok?
    ensures InControl(c, operator, CommitPolicy(c, operator, state, mode, keys, hash).0)
  {
    hide CommitPolicy;
    CommitKeys(c, operator, state, mode, keys, hash);
    assert OperatorKey(c, operator) in multiset(keys);
  }

  /** One command keeps the operator in control, unless it brings in another key under the
      operator's name that the registry does not stop. */
  lemma ApplyKeepsControl(c: Crypto, operator: Identity, state: State, op: Op, hash: string)
    requires Genuine(c, operator) && InControl(c, operator, state)
    requires Protected(c, operator, state, op)
    ensures InControl(c, operator, ApplyOp(c, operator, state, op, hash).0)
  {
    OperatorKeyFields(c, operator);
    hide Genuine, Impersonates, Sealed, CommitPolicy, UpsertAll, UpsertKey, SpecBytes, Trim, IsLabel, Without,
         PushSpecs, OperatorKey, FindAgentKey, RevokeIn;
    var keys, operatorKey := state.policy.keys, OperatorKey(c, operator);
    match op
    case SetMode(mode, specs) =>
      var (registry, done) := UpsertAll(c, state.registry, specs);
      if done.Ok? {
        if Sealed(operator, state.registry) {
          UpsertAllKeepsSealed(c, operator, state.registry, specs);
        }
        PushSpecsKeeps(c, operator, Push(keys, operatorKey), specs);
        CommitIfListed(c, operator, state.(registry := registry), mode, PushSpecs(c, Push(keys, operatorKey), specs),
          hash);
      }
    case AllowKey(spec) =>
      if UpsertKey(c, state.registry, spec).Ok? {
        AllowKeepsControl(c, operator, state, spec, hash);
      }
    case DenyKey(agentId, keyId) =>
      WithoutKeeps(keys, agentId, keyId, operatorKey);
      CommitIfListed(c, operator, state, state.policy.mode, Without(keys, agentId, keyId), hash);
    case _ =>
  }

  lemma CommitIfListed(c: Crypto, operator: Identity, state: State, mode: AccessMode, keys: seq<AllowedKey>,
                       hash: string)
    requires InControl(c, operator, state)
    ensures OperatorKey(c, operator) in keys ==>
              InControl(c, operator, CommitPolicy(c, operator, state, mode, keys, hash).0)
  {
    if OperatorKey(c, operator) in keys {
      CommitKeepsKey(c, operator, state, mode, keys, hash);
    }
  }

  lemma AllowKeepsControl(c: Crypto, operator: Identity, state: State, spec: KeySpec, hash: string)
    requires Genuine(c, operator) && InControl(c, operator, state)
    requires Protected(c, operator, state, AllowKey(spec)) && UpsertKey(c, state.registry, spec).Ok?
    ensures InControl(c, operator, ApplyOp(c, operator, state, AllowKey(spec), hash).0)
  {
    UpsertDecodes(c, state.registry, spec);
    hide CommitPolicy, Trim, IsLabel, UpsertKey;
    var keys, operatorKey := state.policy.keys, OperatorKey(c, operator);
    OperatorKeyFields(c, operator);
    if Sealed(operator, state.registry) {
      UpsertKeepsSealed(c, operator, state.registry, spec);
    }
    var entry := AllowedKeyOf(c, spec.agentId, spec.keyId, SpecBytes(c, spec).value);
    if spec.agentId == OPERATOR_AGENT_ID && spec.keyId == operator.keyId {
      OperatorAgentTrimmed();
      assert entry == operatorKey;
    } else {
      WithoutKeeps(keys, spec.agentId, spec.keyId, operatorKey);
    }
    var registry := UpsertKey(c, state.registry, spec).value;
    CommitIfListed(c, operator, state.(registry := registry), state.policy.mode,
                   Without(keys, spec.agentId, spec.keyId) + [entry], hash);
  }

  // ----- Every record the operator builds is accepted

  lemma PolicyKeysDistinct(c: Crypto, state: State)
    requires Synced(c, state)
    ensures DistinctIdentities(state.policy.keys)
    ensures state.policy.seqNo.None? ==> state.policy.keys == [] && state.policy.headRecordHash.None?
    ensures state.policy.seqNo.Some? ==>
              && |state.policy.keys| <= MAX_POLICY_KEYS && AllDecode(c, state.policy.keys)
              && SortedByLeaf(c, state.policy.keys)
              && forall k :: 0 <= k < |state.policy.keys| ==> Named(state.policy.keys[k])
  {
    var history := Accepted(c, state.thoughts);
    ReplayIsSummary(c, state.thoughts);
    LinkedAreValid(c, history);
  }

  /** While the operator is in control (or starts governance), a record that can be built passes the check. */
  lemma RecordIsAccepted(c: Crypto, operator: Identity, state: State, mode: AccessMode, keys: seq<AllowedKey>,
                         hash: string)
    requires Genuine(c, operator) && Synced(c, state)
    requires InControl(c, operator, state) || (state.policy.seqNo.None? && OperatorKey(c, operator) in keys)
    requires NextRecord(c, state.policy, mode, keys).Ok?
    ensures var record := NextRecord(c, state.policy, mode, keys).value;
            CheckThought(c, state.policy, RecordThought(c, operator, state.thoughts, record, hash)) == Ok(())
  {
    hide NextRecord, Valid, Trim, Replay;
    var operatorKey := OperatorKey(c, operator);
    var record := NextRecord(c, state.policy, mode, keys).value;
    NextRecordIff(c, state.policy, mode, keys);
    OperatorKeyFields(c, operator);
    PolicyKeysDistinct(c, state);
    assert DistinctIdentities(record.keys) by { ValidIsDistinct(c, record); }
    var governors := if record.seqNo == 0 then record.keys else state.policy.keys;
    assert operatorKey in keys ==> operatorKey in multiset(record.keys);
    FindKeyExact(governors, OPERATOR_AGENT_ID, operator.keyId, operatorKey);
    var thought := RecordThought(c, operator, state.thoughts, record, hash);
    assert SignsAndVerifies(c, operator, StoredPayload(c, thought));
  }

  /** So a change goes through exactly when its key list can make a record that keeps a governor. */
  lemma CommitSucceedsIff(c: Crypto, operator: Identity, state: State, mode: AccessMode, keys: seq<AllowedKey>,
                          hash: string)
    requires Genuine(c, operator) && Synced(c, state)
    requires InControl(c, operator, state) || (state.policy.seqNo.None? && OperatorKey(c, operator) in keys)
    ensures CommitPolicy(c, operator, state, mode, keys, hash).1.Ok? <==> Recordable(c, mode, keys) && keys != []
  {
    hide NextRecord, Recordable, CheckThought, RecordThought, Genuine, Synced;
    NextRecordIff(c, state.policy, mode, keys);
    if NextRecord(c, state.policy, mode, keys).Ok? {
      RecordIsAccepted(c, operator, state, mode, keys, hash);
    }
  }

  lemma NextRecordIff(c: Crypto, policy: Policy, mode: AccessMode, keys: seq<AllowedKey>)
    ensures var made := NextRecord(c, policy, mode, keys);
            && (made.Ok? <==> Recordable(c, mode, keys))
            && (made.Ok? ==>
                  && multiset(made.value.keys) == multiset(keys) && (made.value.keys == [] <==> keys == [])
                  && made.value.mode == mode && Valid(c, made.value)
                  && made.value.seqNo == (if policy.seqNo.Some? then policy.seqNo.value + 1 else 0)
                  && made.value.prevPolicy == (if policy.headRecordHash.Some? then policy.headRecordHash.value else ""))
  {
    hide NewRecord, Recordable, Valid;
    NewRecordIff(c, if policy.seqNo.Some? then policy.seqNo.value + 1 else 0, mode, keys,
                 if policy.headRecordHash.Some? then policy.headRecordHash.value else "");
    var made := NextRecord(c, policy, mode, keys);
    if made.Ok? {
      assert |multiset(made.value.keys)| == |made.value.keys| && |multiset(keys)| == |keys|;
    }
  }

  // ----- Committing live is replaying the longer chain

  lemma CommitKeepsSynced(c: Crypto, operator: Identity, state: State, mode: AccessMode, keys: seq<AllowedKey>,
                          hash: string)
    requires Synced(c, state)
    ensures Synced(c, CommitPolicy(c, operator, state, mode, keys, hash).0)
  {
    var (after, committed) := CommitPolicy(c, operator, state, mode, keys, hash);
    if committed.Ok? {
      var record := NextRecord(c, state.policy, mode, keys).value;
      var thought := RecordThought(c, operator, state.thoughts, record, hash);
      assert after.thoughts == state.thoughts + [thought];
      assert after.thoughts[..|state.thoughts|] == state.thoughts;
    }
  }

  /** After every command the policy in force is what a fresh replay of the stored thoughts gives. */
  lemma ApplyKeepsSynced(c: Crypto, operator: Identity, state: State, op: Op, hash: string)
    requires Synced(c, state)
    ensures Synced(c, ApplyOp(c, operator, state, op, hash).0)
  {
    hide CommitPolicy, Replay, UpsertKey, UpsertAll, SpecBytes, Without, PushSpecs;
    var policy := state.policy;
    match op
    case SetMode(mode, specs) =>
      var (registry, done) := UpsertAll(c, state.registry, specs);
      CommitKeepsSynced(c, operator, state.(registry := registry), mode,
                        PushSpecs(c, Push(policy.keys, OperatorKey(c, operator)), specs), hash);
    case AllowKey(spec) =>
      if UpsertKey(c, state.registry, spec).Ok? {
        UpsertDecodes(c, state.registry, spec);
        var entry := AllowedKeyOf(c, spec.agentId, spec.keyId, SpecBytes(c, spec).value);
        CommitKeepsSynced(c, operator, state.(registry := UpsertKey(c, state.registry, spec).value), policy.mode,
                          Without(policy.keys, spec.agentId, spec.keyId) + [entry], hash);
      }
    case DenyKey(agentId, keyId) =>
      CommitKeepsSynced(c, operator, state, policy.mode, Without(policy.keys, agentId, keyId), hash);
    case _ =>
  }

  // ----- Whole runs

  datatype Command = Command(op: Op, hash: string)

  /** The state after a run of operator commands, each stored thought getting the given hash. */
  function Run(c: Crypto, operator: Identity, state: State, commands: seq<Command>): State {
    if commands == [] then state
    else
      var before := Run(c, operator, state, commands[..|commands| - 1]);
      var last := commands[|commands| - 1];
      ApplyOp(c, operator, before, last.op, last.hash).0
  }

  /** Once in control of a chain whose registry is sealed, the operator stays in control, whatever
      commands follow. */
  lemma {:induction false} NeverLockedOut(c: Crypto, operator: Identity, state: State, commands: seq<Command>)
    requires Genuine(c, operator) && InControl(c, operator, state)
    requires Sealed(operator, state.registry)
    ensures var after := Run(c, operator, state, commands);
            InControl(c, operator, after) && Sealed(operator, after.registry)
  {
    hide Genuine, InControl, Sealed, ApplyOp;
    if commands != [] {
      var before := Run(c, operator, state, commands[..|commands| - 1]);
      var last := commands[|commands| - 1];
      NeverLockedOut(c, operator, state, commands[..|commands| - 1]);
      ApplyKeepsControl(c, operator, before, last.op, last.hash);
      ApplyKeepsSealed(c, operator, before, last.op, last.hash);
    }
  }

  /** Whatever the registry holds, commands that never bring in another key under the operator's
      name leave the operator in control. */
  lemma {:induction false} NeverLockedOutUnlessNamed(c: Crypto, operator: Identity, state: State,
                                                     commands: seq<Command>)
    requires Genuine(c, operator) && InControl(c, operator, state)
    requires forall k :: 0 <= k < |commands| ==> !NamesImpersonator(c, operator, commands[k].op)
    ensures InControl(c, operator, Run(c, operator, state, commands))
  {
    hide Genuine, InControl, Sealed, ApplyOp, NamesImpersonator;
    if commands != [] {
      var before := Run(c, operator, state, commands[..|commands| - 1]);
      var last := commands[|commands| - 1];
      NeverLockedOutUnlessNamed(c, operator, state, commands[..|commands| - 1]);
      ApplyKeepsControl(c, operator, before, last.op, last.hash);
    }
  }

  lemma {:induction false} RunKeepsSynced(c: Crypto, operator: Identity, state: State, commands: seq<Command>)
    requires Synced(c, state)
    ensures Synced(c, Run(c, operator, state, commands))
  {
    hide Synced, ApplyOp;
    if commands != [] {
      var last := commands[|commands| - 1];
      RunKeepsSynced(c, operator, state, commands[..|commands| - 1]);
      ApplyKeepsSynced(c, operator, Run(c, operator, state, commands[..|commands| - 1]), last.op, last.hash);
    }
  }

  // ----- Taking control

  /** The operator puts its own key into every policy that a mode change commits. */
  lemma SetModeTakesControl(c: Crypto, operator: Identity, state: State, mode: AccessMode, specs: seq<KeySpec>,
                            hash: string)
    requires Genuine(c, operator)
    requires Protected(c, operator, state, SetMode(mode, specs))
    requires ApplyOp(c, operator, state, SetMode(mode, specs), hash).1 == Ok(true)
    ensures InControl(c, operator, ApplyOp(c, operator, state, SetMode(mode, specs), hash).0)
  {
    hide Genuine, Impersonates, Sealed, CommitPolicy, UpsertAll, SpecBytes, Trim, IsLabel, PushSpecs, OperatorKey;
    var keys, operatorKey := state.policy.keys, OperatorKey(c, operator);
    var (registry, done) := UpsertAll(c, state.registry, specs);
    if Sealed(operator, state.registry) {
      UpsertAllKeepsSealed(c, operator, state.registry, specs);
    }
    PushSpecsKeeps(c, operator, Push(keys, operatorKey), specs);
    CommitKeepsKey(c, operator, state.(registry := registry), mode, PushSpecs(c, Push(keys, operatorKey), specs), hash);
  }
}
