/** Operator commands as steps over stored thoughts, the policy they amount to, and the registry of agent keys. */
module Operator {
  import opened Wrappers
  import opened Text
  import opened Access
  import opened PolicyReplay

  const OPERATOR_AGENT_ID := "mentisdb-operator"
  const MAX_LABEL_LEN: nat := 256
  /** What a governance thought carries besides its record: no tags, links or references. */
  const POLICY_SHAPE: nat := 0

  datatype AgentKey = AgentKey(keyId: string, bytes: Bytes, revoked: bool)
  datatype Agent = Agent(active: bool, keys: seq<AgentKey>)
  type Registry = map<string, Agent>

  const STUB := Agent(true, [])

  /** The operator's signing key; `signV2` is the stored form of its v2 signature. */
  datatype Identity = Identity(keyId: string, publicKey: Bytes, signV2: Bytes -> Bytes)

  datatype KeySpec = KeySpec(agentId: string, keyId: string, publicKey: string)

  datatype Op =
    | Show
    | SetMode(mode: AccessMode, keys: seq<KeySpec>)
    | AllowKey(spec: KeySpec)
    | DenyKey(agentId: string, keyId: string)
    | RegisterKey(spec: KeySpec)
    | RevokeKey(agentId: string, keyId: string)
    | DisableAgent(agentId: string)
    | EnableAgent(agentId: string)

  datatype OpError = InvalidInput | NotFound | Refused(why: AccessError)

  /** What an operator command changes: the stored thoughts, the policy in force and the key registry. */
  datatype State = State(thoughts: seq<Thought>, policy: Policy, registry: Registry)

  // ----- Labels and keys

  function Utf8Len(s: string): nat {
    if s == [] then 0
    else
      var rest := Utf8Len(s[1..]);
      if s[0] < '\U{80}' then 1 + rest
      else if s[0] < '\U{800}' then 2 + rest
      else if s[0] < '\U{10000}' then 3 + rest
      else 4 + rest
  }

  predicate IsLabel(value: string) {
    && Trim(value) != ""
    && Utf8Len(value) <= MAX_LABEL_LEN
    && forall k :: 0 <= k < |value| ==> !IsControl(value[k])
  }

  function SpecBytes(c: Crypto, spec: KeySpec): Option<Bytes> {
    if !IsLabel(spec.agentId) || !IsLabel(spec.keyId) then None
    else
      match c.fromHex(spec.publicKey)
      case None => None
      case Some(bytes) => if c.validKey(bytes) then Some(bytes) else None
  }

  function AllowedKeyOf(c: Crypto, agentId: string, keyId: string, bytes: Bytes): AllowedKey {
    AllowedKey(Trim(agentId), Trim(keyId), c.toHex(bytes))
  }

  function OperatorKey(c: Crypto, operator: Identity): AllowedKey {
    AllowedKeyOf(c, OPERATOR_AGENT_ID, operator.keyId, operator.publicKey)
  }

  // ----- The registry

  function FindAgentKey(keys: seq<AgentKey>, keyId: string): Option<AgentKey> {
    if keys == [] then None
    else if keys[0].keyId == keyId then Some(keys[0])
    else FindAgentKey(keys[1..], keyId)
  }

  function AgentOf(registry: Registry, agentId: string): Agent {
    if agentId in registry then registry[agentId] else STUB
  }

  function Lookup(registry: Registry, agentId: string, keyId: string): Option<AgentKey> {
    FindAgentKey(AgentOf(registry, agentId).keys, keyId)
  }

  /** Register a key on the operator's word: the same key again changes nothing, another key
      under a known id (or a revoked one) is refused. */
  function UpsertKey(c: Crypto, registry: Registry, spec: KeySpec): Result<Registry, OpError> {
    match SpecBytes(c, spec)
    case None => Err(InvalidInput)
    case Some(bytes) =>
      var agentId, keyId := Trim(spec.agentId), Trim(spec.keyId);
      var agent := AgentOf(registry, agentId);
      match FindAgentKey(agent.keys, keyId)
      case Some(existing) =>
        if existing.bytes == bytes && !existing.revoked then Ok(registry[agentId := agent]) else Err(InvalidInput)
      case None =>
        Ok(registry[agentId := agent.(keys := agent.keys + [AgentKey(keyId, bytes, false)])])
  }

  /** Register keys in order; the ones before a refused key stay registered. */
  function UpsertAll(c: Crypto, registry: Registry, specs: seq<KeySpec>): (Registry, Result<(), OpError>)
    decreases |specs|
  {
    if specs == [] then (registry, Ok(()))
    else
      match UpsertKey(c, registry, specs[0])
      case Err(error) => (registry, Err(error))
      case Ok(after) => UpsertAll(c, after, specs[1..])
  }

  function RevokeIn(keys: seq<AgentKey>, keyId: string): seq<AgentKey> {
    if keys == [] then []
    else if keys[0].keyId == keyId then [keys[0].(revoked := true)] + keys[1..]
    else [keys[0]] + RevokeIn(keys[1..], keyId)
  }

  /** A registry that has some key under the operator's id is left alone; otherwise the operator's own is added. */
  function EnsureRegistered(registry: Registry, operator: Identity): Registry {
    var agent := AgentOf(registry, OPERATOR_AGENT_ID);
    if OPERATOR_AGENT_ID in registry && FindAgentKey(agent.keys, operator.keyId).Some? then registry
    else
      registry[OPERATOR_AGENT_ID := Agent(true, agent.keys + [AgentKey(operator.keyId, operator.publicKey, false)])]
  }

  // ----- Committing a policy record

  function HeadOf(thoughts: seq<Thought>): string {
    if thoughts == [] then "" else thoughts[|thoughts| - 1].hash
  }

  /** The governance thought the operator signs for `record` on top of `thoughts`. */
  function RecordThought(c: Crypto, operator: Identity, thoughts: seq<Thought>, record: PolicyRecord, hash: string)
    : (thought: Thought)
    ensures thought.record == Some(record)
  {
    var head := HeadOf(thoughts);
    var payload := c.payload(OPERATOR_AGENT_ID, head, record, POLICY_SHAPE);
    Thought(|thoughts|, hash, head, true, Some(record), OPERATOR_AGENT_ID, Some(Trim(operator.keyId)),
            Some(operator.signV2(payload)), POLICY_SHAPE)
  }

  /** The record the next policy change would commit. */
  function NextRecord(c: Crypto, policy: Policy, mode: AccessMode,
                      keys: seq<AllowedKey>): Result<PolicyRecord, AccessError> {
    NewRecord(c, if policy.seqNo.Some? then policy.seqNo.value + 1 else 0, mode, keys,
              if policy.headRecordHash.Some? then policy.headRecordHash.value else "")
  }

  function CheckThought(c: Crypto, policy: Policy, thought: Thought): Result<(), AccessError>
    requires thought.record.Some? && thought.keyId.Some? && thought.signature.Some?
  {
    policy.CheckRecord(c, thought.record.value, thought.agentId, thought.keyId.value, thought.signature.value,
                       StoredPayload(c, thought))
  }

  /** One more governance thought by the operator, stored under `hash` when its record can be built and passes
      the check; the operator ends up in the registry either way. */
  function CommitPolicy(c: Crypto, operator: Identity, state: State, mode: AccessMode, keys: seq<AllowedKey>,
                        hash: string)
    : (State, Result<(), OpError>)
  {
    var registered := state.(registry := EnsureRegistered(state.registry, operator));
    match NextRecord(c, state.policy, mode, keys)
    case Err(error) => (registered, Err(Refused(error)))
    case Ok(record) =>
      if record.keys == [] then (registered, Err(Refused(PolicyInvalid)))
      else
        var thought := RecordThought(c, operator, state.thoughts, record, hash);
        match CheckThought(c, state.policy, thought)
        case Err(error) => (registered, Err(Refused(error)))
        case Ok(_) =>
          (registered.(thoughts := state.thoughts + [thought],
                       policy := state.policy.CommitRecord(record, hash, |state.thoughts|)), Ok(()))
  }

  // ----- The commands

  /** The entries that do not have this identity. */
  function Without(keys: seq<AllowedKey>, agentId: string, keyId: string): seq<AllowedKey> {
    if keys == [] then []
    else
      var rest := Without(keys[1..], agentId, keyId);
      if keys[0].agentId == agentId && keys[0].keyId == keyId then rest else [keys[0]] + rest
  }

  /** Replace the entry with this identity, moving it to the end. */
  function Push(keys: seq<AllowedKey>, key: AllowedKey): seq<AllowedKey> {
    Without(keys, key.agentId, key.keyId) + [key]
  }

  function PushSpecs(c: Crypto, keys: seq<AllowedKey>, specs: seq<KeySpec>): seq<AllowedKey> {
    if specs == [] then keys
    else
      var before := PushSpecs(c, keys, specs[..|specs| - 1]);
      var last := specs[|specs| - 1];
      match SpecBytes(c, last)
      case None => before
      case Some(bytes) => Push(before, AllowedKeyOf(c, last.agentId, last.keyId, bytes))
  }

  /** The commit of a command, with what the command reports. */
  function Committing(c: Crypto, operator: Identity, state: State, mode: AccessMode, keys: seq<AllowedKey>,
                      hash: string)
    : (State, Result<bool, OpError>)
  {
    var (after, committed) := CommitPolicy(c, operator, state, mode, keys, hash);
    (after, if committed.Ok? then Ok(true) else Err(committed.error))
  }

  /** One operator command. The second result says whether the chain changed, or why it did not. */
  function ApplyOp(c: Crypto, operator: Identity, state: State, op: Op, hash: string): (State, Result<bool, OpError>) {
    var policy := state.policy;
    match op
    case Show => (state, Ok(false))
    case SetMode(mode, specs) =>
      if |specs| >= MAX_POLICY_KEYS then (state, Err(InvalidInput))
      else
        var (registry, registered) := UpsertAll(c, state.registry, specs);
        var after := state.(registry := registry);
        if registered.Err? then (after, Err(registered.error))
        else
          var allowed := PushSpecs(c, Push(policy.keys, OperatorKey(c, operator)), specs);
          if policy.seqNo.None? && mode == Open then (after, Ok(false))
          else if policy.seqNo.Some? && policy.mode == mode && policy.keys == allowed then (after, Ok(false))
          else Committing(c, operator, after, mode, allowed, hash)
    case AllowKey(spec) =>
      if policy.seqNo.None? then (state, Err(InvalidInput))
      else
        (match UpsertKey(c, state.registry, spec)
         case Err(error) => (state, Err(error))
         case Ok(registry) =>
           var after := state.(registry := registry);
           var entry := AllowedKeyOf(c, spec.agentId, spec.keyId, SpecBytesOf(c, state.registry, spec));
           if entry in policy.keys then (after, Ok(false))
           else Committing(c, operator, after, policy.mode, Without(policy.keys, spec.agentId, spec.keyId) + [entry],
               hash))
    case DenyKey(agentId, keyId) =>
      if !IsLabel(agentId) || !IsLabel(keyId) then (state, Err(InvalidInput))
      else if agentId == OperatorKey(c, operator).agentId && keyId == OperatorKey(c, operator).keyId then
        (state, Err(InvalidInput))
      else
        var allowed := Without(policy.keys, agentId, keyId);
        if |allowed| == |policy.keys| || allowed == [] then (state, Err(InvalidInput))
        else Committing(c, operator, state, policy.mode, allowed, hash)
    case RegisterKey(spec) =>
      (match UpsertKey(c, state.registry, spec)
       case Err(error) => (state, Err(error))
       case Ok(registry) => (state.(registry := registry), Ok(true)))
    case RevokeKey(agentId, keyId) =>
      if !IsLabel(agentId) || !IsLabel(keyId) then (state, Err(InvalidInput))
      else if agentId == OPERATOR_AGENT_ID && keyId == operator.keyId then (state, Err(InvalidInput))
      else if Trim(agentId) !in state.registry then (state, Err(NotFound))
      else
        var agent := state.registry[Trim(agentId)];
        if FindAgentKey(agent.keys, Trim(keyId)).None? then (state, Err(NotFound))
        else
          (state.(registry := state.registry[Trim(agentId) := agent.(keys := RevokeIn(agent.keys, Trim(keyId)))]),
            Ok(true))
    case DisableAgent(agentId) =>
      if !IsLabel(agentId) || agentId == OPERATOR_AGENT_ID then (state, Err(InvalidInput))
      else if Trim(agentId) !in state.registry then (state, Err(NotFound))
      else
        (state.(registry := state.registry[Trim(agentId) := state.registry[Trim(agentId)].(active := false)]), Ok(true))
    case EnableAgent(agentId) =>
      if Trim(agentId) == "" then (state, Err(InvalidInput))
      else
        (state.(registry := state.registry[Trim(agentId) := AgentOf(state.registry, Trim(agentId)).(active := true)]),
          Ok(true))
  }

  /** The bytes of a key that was just registered. */
  function SpecBytesOf(c: Crypto, registry: Registry, spec: KeySpec): Bytes
    requires UpsertKey(c, registry, spec).Ok?
  {
    SpecBytes(c, spec).value
  }

  // ----- The chain the commands change

  class GovernedChain {
    var thoughts: seq<Thought>
    var policy: Policy
    var registry: Registry

    ghost function Model(): State
      reads this
    {
      State(thoughts, policy, registry)
    }

    /** Register keys one by one, stopping at the first that is refused. */
    method UpsertKeys(c: Crypto, specs: seq<KeySpec>) returns (done: Result<(), OpError>)
      modifies `registry
      ensures (registry, done) == UpsertAll(c, old(registry), specs)
    {
      done := Ok(());
      assert specs[0..] == specs;
      for k := 0 to |specs|
        invariant UpsertAll(c, old(registry), specs) == UpsertAll(c, registry, specs[k..])
      {
        assert specs[k..][1..] == specs[k + 1..];
        var one := UpsertKey(c, registry, specs[k]);
        if one.Err? {
          return Err(one.error);
        }
        registry := one.value;
      }
    }

    method Commit(c: Crypto, operator: Identity, mode: AccessMode, keys: seq<AllowedKey>, hash: string)
      returns (done: Result<bool, OpError>)
      modifies this
      ensures (Model(), done) == Committing(c, operator, old(Model()), mode, keys, hash)
    {
      registry := EnsureRegistered(registry, operator);
      var made := NextRecord(c, policy, mode, keys);
      if made.Err? {
        return Err(Refused(made.error));
      }
      var record := made.value;
      if record.keys == [] {
        return Err(Refused(PolicyInvalid));
      }
      var thought := RecordThought(c, operator, thoughts, record, hash);
      var checked := CheckThought(c, policy, thought);
      if checked.Err? {
        return Err(Refused(checked.error));
      }
      policy := policy.CommitRecord(record, hash, |thoughts|);
      thoughts := thoughts + [thought];
      done := Ok(true);
    }

    /** The allowed list a mode change asks for: the operator's key, then the given ones. */
    method AllowedWith(c: Crypto, operator: Identity, specs: seq<KeySpec>) returns (allowed: seq<AllowedKey>)
      ensures allowed == PushSpecs(c, Push(policy.keys, OperatorKey(c, operator)), specs)
    {
      allowed := Push(policy.keys, OperatorKey(c, operator));
      for k := 0 to |specs|
        invariant allowed == PushSpecs(c, Push(policy.keys, OperatorKey(c, operator)), specs[..k])
      {
        assert specs[..k + 1][..k] == specs[..k];
        var bytes := SpecBytes(c, specs[k]);
        if bytes.Some? {
          allowed := Push(allowed, AllowedKeyOf(c, specs[k].agentId, specs[k].keyId, bytes.value));
        }
      }
      assert specs[..|specs|] == specs;
    }

    method SetMode(c: Crypto, operator: Identity, mode: AccessMode, specs: seq<KeySpec>, hash: string)
      returns (done: Result<bool, OpError>)
      modifies this
      ensures (Model(), done) == ApplyOp(c, operator, old(Model()), Op.SetMode(mode, specs), hash)
    {
      if |specs| >= MAX_POLICY_KEYS {
        return Err(InvalidInput);
      }
      var registered := UpsertKeys(c, specs);
      if registered.Err? {
        return Err(registered.error);
      }
      var allowed := AllowedWith(c, operator, specs);
      var alreadyPublic := policy.seqNo.None? && mode == Open;
      var same := policy.seqNo.Some? && policy.mode == mode && policy.keys == allowed;
      if alreadyPublic || same {
        return Ok(false);
      }
      done := Commit(c, operator, mode, allowed, hash);
    }

    method AllowKey(c: Crypto, operator: Identity, spec: KeySpec, hash: string) returns (done: Result<bool, OpError>)
      modifies this
      ensures (Model(), done) == ApplyOp(c, operator, old(Model()), Op.AllowKey(spec), hash)
    {
      if policy.seqNo.None? {
        return Err(InvalidInput);
      }
      var one := UpsertKey(c, registry, spec);
      if one.Err? {
        return Err(one.error);
      }
      var entry := AllowedKeyOf(c, spec.agentId, spec.keyId, SpecBytesOf(c, registry, spec));
      registry := one.value;
      if entry in policy.keys {
        return Ok(false);
      }
      var allowed := Without(policy.keys, spec.agentId, spec.keyId) + [entry];
      done := Commit(c, operator, policy.mode, allowed, hash);
    }

    method DenyKey(c: Crypto, operator: Identity, agentId: string, keyId: string, hash: string)
      returns (done: Result<bool, OpError>)
      modifies this
      ensures (Model(), done) == ApplyOp(c, operator, old(Model()), Op.DenyKey(agentId, keyId), hash)
    {
      if !IsLabel(agentId) || !IsLabel(keyId) {
        return Err(InvalidInput);
      }
      var operatorKey := OperatorKey(c, operator);
      if agentId == operatorKey.agentId && keyId == operatorKey.keyId {
        return Err(InvalidInput);
      }
      var allowed := Without(policy.keys, agentId, keyId);
      if |allowed| == |policy.keys| || allowed == [] {
        return Err(InvalidInput);
      }
      done := Commit(c, operator, policy.mode, allowed, hash);
    }

    method RevokeKey(c: Crypto, operator: Identity, agentId: string, keyId: string, hash: string)
      returns (done: Result<bool, OpError>)
      modifies `registry
      ensures (Model(), done) == ApplyOp(c, operator, old(Model()), Op.RevokeKey(agentId, keyId), hash)
    {
      hide IsLabel, Trim, FindAgentKey, RevokeIn;
      if !IsLabel(agentId) || !IsLabel(keyId) {
        return Err(InvalidInput);
      }
      if agentId == OPERATOR_AGENT_ID && keyId == operator.keyId {
        return Err(InvalidInput);
      }
      if Trim(agentId) !in registry {
        return Err(NotFound);
      }
      var agent := registry[Trim(agentId)];
      if FindAgentKey(agent.keys, Trim(keyId)).None? {
        return Err(NotFound);
      }
      registry := registry[Trim(agentId) := agent.(keys := RevokeIn(agent.keys, Trim(keyId)))];
      done := Ok(true);
    }

    /** One operator command. */
    method Apply(c: Crypto, operator: Identity, op: Op, hash: string) returns (done: Result<bool, OpError>)
      modifies this
      ensures (Model(), done) == ApplyOp(c, operator, old(Model()), op, hash)
    {
      hide IsLabel, Trim, UpsertKey, UpsertAll, Committing, Without, PushSpecs, FindAgentKey;
      match op
      case Show => done := Ok(false);
      case SetMode(mode, specs) => done := SetMode(c, operator, mode, specs, hash);
      case AllowKey(spec) => done := AllowKey(c, operator, spec, hash);
      case DenyKey(agentId, keyId) => done := DenyKey(c, operator, agentId, keyId, hash);
      case RegisterKey(spec) =>
        var one := UpsertKey(c, registry, spec);
        if one.Err? {
          return Err(one.error);
        }
        registry := one.value;
        done := Ok(true);
      case RevokeKey(agentId, keyId) => done := RevokeKey(c, operator, agentId, keyId, hash);
      case DisableAgent(agentId) =>
        if !IsLabel(agentId) || agentId == OPERATOR_AGENT_ID {
          return Err(InvalidInput);
        }
        if Trim(agentId) !in registry {
          return Err(NotFound);
        }
        registry := registry[Trim(agentId) := registry[Trim(agentId)].(active := false)];
        done := Ok(true);
      case EnableAgent(agentId) =>
        if Trim(agentId) == "" {
          return Err(InvalidInput);
        }
        registry := registry[Trim(agentId) := AgentOf(registry, Trim(agentId)).(active := true)];
        done := Ok(true);
    }
  }
}
