/** An operator whose signatures no listed key verifies can never change the policy again. */
module OperatorShutOut {
  import opened Wrappers
  import opened Text
  import opened Access
  import opened PolicyReplay
  import opened Operator
  import opened OperatorSafety

  ghost predicate VerifiesUnder(c: Crypto, operator: Identity, bytes: Bytes, payload: Bytes) {
    var stored := c.parseSignature(operator.signV2(payload));
    stored.Some? && stored.value.version == V2 && c.verify(bytes, payload, stored.value.signature)
  }

  /** Nothing the operator signs verifies under `bytes`. */
  ghost predicate Foreign(c: Crypto, operator: Identity, bytes: Bytes) {
    forall payload :: !VerifiesUnder(c, operator, bytes, payload)
  }

  /** The chain is governed, and no entry under the operator's agent and key id verifies what it signs. */
  ghost predicate ShutOut(c: Crypto, operator: Identity, policy: Policy) {
    && policy.seqNo.Some?
    && match FindKey(policy.keys, OPERATOR_AGENT_ID, Trim(operator.keyId))
       case None => true
       case Some(entry) => PublicKeyBytes(c, entry).None? || Foreign(c, operator, PublicKeyBytes(c, entry).value)
  }

  /** A shut-out operator's records are all refused. */
  lemma CommitShutOut(c: Crypto, operator: Identity, state: State, mode: AccessMode, keys: seq<AllowedKey>,
                      hash: string)
    requires ShutOut(c, operator, state.policy)
    ensures var (after, committed) := CommitPolicy(c, operator, state, mode, keys, hash);
            committed.Err? && after.policy == state.policy && after.thoughts == state.thoughts
  {
    NextRecordIff(c, state.policy, mode, keys);
    hide NextRecord, Recordable, Valid, PublicKeyBytes, Trim, EnsureRegistered, FindKey;
    if NextRecord(c, state.policy, mode, keys).Ok? {
      var thought := RecordThought(c, operator, state.thoughts, NextRecord(c, state.policy, mode, keys).value, hash);
      var payload := StoredPayload(c, thought);
      assert thought.signature == Some(operator.signV2(payload));
      assert forall bytes :: Foreign(c, operator, bytes) ==> !VerifiesUnder(c, operator, bytes, payload);
    }
  }

  /** None of a shut-out operator's commands changes the policy. */
  lemma ApplyShutOut(c: Crypto, operator: Identity, state: State, op: Op, hash: string)
    requires ShutOut(c, operator, state.policy)
    ensures ApplyOp(c, operator, state, op, hash).0.policy == state.policy
  {
    hide ShutOut, CommitPolicy, UpsertKey, UpsertAll, SpecBytes, Without, PushSpecs, Push, OperatorKey, IsLabel, Trim,
         FindAgentKey;
    var policy := state.policy;
    match op
    case SetMode(mode, specs) =>
      var registry := UpsertAll(c, state.registry, specs).0;
      CommitShutOut(c, operator, state.(registry := registry), mode,
                    PushSpecs(c, Push(policy.keys, OperatorKey(c, operator)), specs), hash);
    case AllowKey(spec) =>
      if UpsertKey(c, state.registry, spec).Ok? {
        UpsertDecodes(c, state.registry, spec);
        var entry := AllowedKeyOf(c, spec.agentId, spec.keyId, SpecBytes(c, spec).value);
        CommitShutOut(c, operator, state.(registry := UpsertKey(c, state.registry, spec).value), policy.mode,
                      Without(policy.keys, spec.agentId, spec.keyId) + [entry], hash);
      }
    case DenyKey(agentId, keyId) =>
      CommitShutOut(c, operator, state, policy.mode, Without(policy.keys, agentId, keyId), hash);
    case _ =>
  }

  lemma {:induction false} RunShutOut(c: Crypto, operator: Identity, state: State, commands: seq<Command>)
    requires ShutOut(c, operator, state.policy)
    ensures Run(c, operator, state, commands).policy == state.policy
  {
    hide ShutOut, ApplyOp;
    if commands != [] {
      var last := commands[|commands| - 1];
      RunShutOut(c, operator, state, commands[..|commands| - 1]);
      ApplyShutOut(c, operator, Run(c, operator, state, commands[..|commands| - 1]), last.op, last.hash);
    }
  }

  /** Some run of commands puts the operator in control. */
  ghost predicate CanTakeBack(c: Crypto, operator: Identity, state: State) {
    exists commands :: InControl(c, operator, Run(c, operator, state, commands))
  }

  lemma ShutOutForGood(c: Crypto, operator: Identity, state: State)
    requires ShutOut(c, operator, state.policy) && !InControl(c, operator, state)
    ensures !CanTakeBack(c, operator, state)
  {
    hide ShutOut, Run;
    forall commands
      ensures !InControl(c, operator, Run(c, operator, state, commands))
    {
      RunShutOut(c, operator, state, commands);
    }
  }
}
