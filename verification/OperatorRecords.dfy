/** What the governance thoughts stored by operator commands look like, and how they join up. */
module OperatorRecords {
  import opened Wrappers
  import opened Text
  import opened Access
  import opened PolicyReplay
  import opened Operator
  import opened OperatorSafety

  /** `t` is a governance thought the operator signed on top of `before`: at the next position, naming the hash of
      the last thought, and signed over what it says. */
  ghost predicate SignedOn(c: Crypto, operator: Identity, before: seq<Thought>, t: Thought) {
    && t.isPolicy && t.record.Some? && t.index == |before|
    && t.prevHash == (if before == [] then "" else before[|before| - 1].hash)
    && t.agentId == "mentisdb-operator" && t.keyId == Some(Trim(operator.keyId))
    && t.signature == Some(operator.signV2(c.payload(t.agentId, t.prevHash, t.record.value, t.shape)))
  }

  /** A change that goes through stores one such thought, under its hash, and numbers its record next. */
  lemma CommittingStores(c: Crypto, operator: Identity, state: State, mode: AccessMode, keys: seq<AllowedKey>,
                         hash: string)
    ensures var (after, done) := Committing(c, operator, state, mode, keys, hash);
            if done == Ok(true) then
              && |after.thoughts| == |state.thoughts| + 1 && after.thoughts[..|state.thoughts|] == state.thoughts
              && var t := after.thoughts[|state.thoughts|];
              && SignedOn(c, operator, state.thoughts, t) && t.hash == hash && t.record.value.mode == mode
              && t.record.value.seqNo == (if state.policy.seqNo.Some? then state.policy.seqNo.value + 1 else 0)
              && t.record.value.prevPolicy ==
                 (if state.policy.headRecordHash.Some? then state.policy.headRecordHash.value else "")
              && multiset(t.record.value.keys) == multiset(keys)
            else done.Err? && after.thoughts == state.thoughts
  {
    NextRecordIff(c, state.policy, mode, keys);
    hide NextRecord, CheckThought, EnsureRegistered, Policy.CommitRecord;
  }

  /** Every change leaves the operator's key id registered, with the operator's own key if it was free, and touches
      no other key and no other agent. */
  lemma CommittingRegisters(c: Crypto, operator: Identity, state: State, mode: AccessMode, keys: seq<AllowedKey>,
                            hash: string)
    ensures var before := state.registry;
            var after := Committing(c, operator, state, mode, keys, hash).0.registry;
            var known := Lookup(before, "mentisdb-operator", operator.keyId);
            && Lookup(after, "mentisdb-operator", operator.keyId) ==
               (if known.Some? then known else Some(AgentKey(operator.keyId, operator.publicKey, false)))
            && (known.None? ==> AgentOf(after, "mentisdb-operator").active)
            && after.Keys == before.Keys + {"mentisdb-operator"}
            && (forall a :: a != "mentisdb-operator" ==> AgentOf(after, a) == AgentOf(before, a))
            && forall a, k :: (a != "mentisdb-operator" || k != operator.keyId) ==>
                 Lookup(after, a, k) == Lookup(before, a, k)
  {
    hide NextRecord, CheckThought, RecordThought, Policy.CommitRecord;
    var keys := AgentOf(state.registry, OPERATOR_AGENT_ID).keys;
    var own := AgentKey(operator.keyId, operator.publicKey, false);
    forall k
      ensures FindAgentKey(keys + [own], k) ==
              if FindAgentKey(keys, k).Some? then FindAgentKey(keys, k)
              else if k == operator.keyId then Some(own) else None
    {
      FindAppended(keys, [own], k);
    }
    assert FindAgentKey([], operator.keyId) == None;
    hide FindAgentKey;
  }

  // ----- Whole runs

  /** Every thought is at its position and names the hash of the one before it. */
  ghost predicate HashLinked(thoughts: seq<Thought>) {
    forall k :: 0 <= k < |thoughts| ==> NamesBefore(thoughts, k)
  }

  ghost predicate NamesBefore(thoughts: seq<Thought>, k: nat)
    requires k < |thoughts|
  {
    thoughts[k].index == k && thoughts[k].prevHash == if k == 0 then "" else thoughts[k - 1].hash
  }

  lemma ApplyKeepsLinked(c: Crypto, operator: Identity, state: State, op: Op, hash: string)
    requires HashLinked(state.thoughts)
    ensures HashLinked(ApplyOp(c, operator, state, op, hash).0.thoughts)
    ensures state.thoughts <= ApplyOp(c, operator, state, op, hash).0.thoughts
  {
    hide Committing, UpsertKey, UpsertAll, SpecBytes, Without, PushSpecs, Push, OperatorKey, IsLabel, Trim;
    var policy := state.policy;
    match op
    case SetMode(mode, specs) =>
      CommittingLinks(c, operator, state.(registry := UpsertAll(c, state.registry, specs).0), mode,
                      PushSpecs(c, Push(policy.keys, OperatorKey(c, operator)), specs), hash);
    case AllowKey(spec) =>
      if UpsertKey(c, state.registry, spec).Ok? {
        UpsertDecodes(c, state.registry, spec);
        var entry := AllowedKeyOf(c, spec.agentId, spec.keyId, SpecBytes(c, spec).value);
        CommittingLinks(c, operator, state.(registry := UpsertKey(c, state.registry, spec).value), policy.mode,
                        Without(policy.keys, spec.agentId, spec.keyId) + [entry], hash);
      }
    case DenyKey(a, k) => CommittingLinks(c, operator, state, policy.mode, Without(policy.keys, a, k), hash);
    case _ =>
  }

  lemma CommittingLinks(c: Crypto, operator: Identity, state: State, mode: AccessMode, keys: seq<AllowedKey>,
                        hash: string)
    requires HashLinked(state.thoughts)
    ensures HashLinked(Committing(c, operator, state, mode, keys, hash).0.thoughts)
    ensures state.thoughts <= Committing(c, operator, state, mode, keys, hash).0.thoughts
  {
    CommittingStores(c, operator, state, mode, keys, hash);
    var (after, done) := Committing(c, operator, state, mode, keys, hash);
    hide Committing, Trim;
    if done == Ok(true) {
      var t := after.thoughts[|state.thoughts|];
      assert SignedOn(c, operator, state.thoughts, t);
      LinkedMore(c, operator, state.thoughts, t);
      assert after.thoughts == state.thoughts + [t];
    }
  }

  lemma LinkedMore(c: Crypto, operator: Identity, thoughts: seq<Thought>, t: Thought)
    requires HashLinked(thoughts) && SignedOn(c, operator, thoughts, t)
    ensures HashLinked(thoughts + [t])
  {
    hide Trim;
    var all := thoughts + [t];
    forall k | 0 <= k < |all|
      ensures NamesBefore(all, k)
    {
      assert k < |thoughts| ==> NamesBefore(thoughts, k);
    }
  }

  /** Runs of commands only append, and keep the chain linked by hash. */
  lemma {:induction false} RunKeepsLinked(c: Crypto, operator: Identity, state: State, commands: seq<Command>)
    requires HashLinked(state.thoughts)
    ensures HashLinked(Run(c, operator, state, commands).thoughts)
    ensures state.thoughts <= Run(c, operator, state, commands).thoughts
  {
    hide HashLinked, ApplyOp;
    if commands != [] {
      var last := commands[|commands| - 1];
      RunKeepsLinked(c, operator, state, commands[..|commands| - 1]);
      ApplyKeepsLinked(c, operator, Run(c, operator, state, commands[..|commands| - 1]), last.op, last.hash);
    }
  }
}
