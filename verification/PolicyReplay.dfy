/** What a sequence of stored governance thoughts amounts to: who governs, in which mode, and which positions are
    private. */
module PolicyReplay {
  import opened Wrappers
  import opened Access
  import Audience

  datatype Policy = Policy(mode: AccessMode, seqNo: Option<nat>, keys: seq<AllowedKey>, keysRoot: string,
                           genesisHash: Option<string>, headRecordHash: Option<string>,
                           invalidRecords: seq<string>, segments: Audience.Segments) {

    /** The first rule `record` breaks as the record after this state, when `agentId` signs it with `keyId`; `Ok`
        when it breaks none. */
    function CheckRecord(c: Crypto, record: PolicyRecord, agentId: string, keyId: string,
                         signature: Bytes, payload: Bytes): Result<(), AccessError>
    {
      if !Valid(c, record) then Err(PolicyInvalid)
      else if record.seqNo != (if seqNo.Some? then seqNo.value + 1 else 0) then Err(PolicyInvalid)
      else if record.prevPolicy != (if headRecordHash.Some? then headRecordHash.value else "") then Err(PolicyInvalid)
      else
        match c.parseSignature(signature)
        case None => Err(UnsupportedSignature)
        case Some(stored) =>
          if stored.version != V2 then Err(SignatureVersionNotAllowed)
          else
            match FindKey(if record.seqNo == 0 then record.keys else keys, agentId, keyId)
            case None => Err(NotAuthorized)
            case Some(signer) =>
              match PublicKeyBytes(c, signer)
              case None => Err(PolicyInvalid)
              case Some(bytes) => if c.verify(bytes, payload, stored.signature) then Ok(()) else Err(BadSignature)
    }

    /** `record` takes over as head of the history, under `hash` and at `index`; what was rejected stays listed. */
    function CommitRecord(record: PolicyRecord, hash: string, index: nat): Policy {
      Policy(record.mode, Some(record.seqNo), record.keys, record.keysRoot,
             if record.seqNo == 0 then Some(hash) else genesisHash, Some(hash),
             invalidRecords,
             Audience.CommitTo(segments, Audience.Commit(index, record.mode.SegmentKind(), record.seqNo)))
    }

    /** The next state when `thought` carries a record that may follow this one, or why it may not. */
    function ApplyThought(c: Crypto, thought: Thought): Result<Policy, AccessError> {
      if thought.record.None? || !Valid(c, thought.record.value) then Err(PolicyInvalid)
      else if thought.signature.None? then Err(SignatureRequired)
      else if thought.keyId.None? then Err(MissingSigningKeyId)
      else
        var checked := CheckRecord(c, thought.record.value, thought.agentId, thought.keyId.value,
                                   thought.signature.value, StoredPayload(c, thought));
        if checked.Err? then Err(checked.error)
        else Ok(CommitRecord(thought.record.value, thought.hash, thought.index))
    }
  }

  /** The policy of a chain without records. */
  function NoPolicy(c: Crypto): Policy {
    Policy(Open, None, [], c.merkleRoot([]), None, None, [], Audience.NO_SEGMENTS)
  }

  /** The first entry of `keys` with this agent and key id. */
  function FindKey(keys: seq<AllowedKey>, agentId: string, keyId: string): (found: Option<AllowedKey>)
    ensures found.Some? ==> found.value in keys && found.value.agentId == agentId && found.value.keyId == keyId
    ensures found.None? ==> forall k :: k in keys ==> k.agentId != agentId || k.keyId != keyId
  {
    if keys == [] then None
    else if keys[0].agentId == agentId && keys[0].keyId == keyId then Some(keys[0])
    else FindKey(keys[1..], agentId, keyId)
  }

  /** What the signer of a stored governance thought signed. */
  function StoredPayload(c: Crypto, thought: Thought): Bytes
    requires thought.record.Some?
  {
    c.payload(thought.agentId, thought.prevHash, thought.record.value, thought.shape)
  }

  /** One thought of the chain: other types are passed over, a rejected record is only listed. */
  function ReplayStep(c: Crypto, policy: Policy, thought: Thought): Policy {
    if !thought.isPolicy then policy
    else
      match policy.ApplyThought(c, thought)
      case Ok(after) => after
      case Err(_) => policy.(invalidRecords := policy.invalidRecords + [thought.hash])
  }

  function Replay(c: Crypto, thoughts: seq<Thought>): Policy {
    if thoughts == [] then NoPolicy(c)
    else ReplayStep(c, Replay(c, thoughts[..|thoughts| - 1]), thoughts[|thoughts| - 1])
  }

  // ----- The policy as the chain keeps it

  class AccessPolicy {
    var mode: AccessMode
    var seqNo: Option<nat>
    var keys: seq<AllowedKey>
    var keysRoot: string
    var genesisHash: Option<string>
    var headRecordHash: Option<string>
    var invalidRecords: seq<string>
    const segments: Audience.SegmentMap

    ghost function Model(): Policy
      reads this, segments
    {
      Policy(mode, seqNo, keys, keysRoot, genesisHash, headRecordHash, invalidRecords, segments.Model())
    }

    constructor (c: Crypto)
      ensures fresh(segments) && Model() == NoPolicy(c)
    {
      mode, seqNo, keys, keysRoot := Open, None, [], c.merkleRoot([]);
      genesisHash, headRecordHash, invalidRecords := None, None, [];
      segments := new Audience.SegmentMap();
    }

    method CommitRecord(record: PolicyRecord, hash: string, index: nat)
      modifies this, segments
      ensures Model() == old(Model()).CommitRecord(record, hash, index)
    {
      if record.seqNo == 0 {
        genesisHash := Some(hash);
      }
      segments.PushRecord(index);
      var kind := record.mode.SegmentKind();
      var start := if kind == Audience.SegmentKind.Private then index else index + 1;
      segments.Push(Audience.Segment(start, kind, record.seqNo));
      mode, seqNo, keys, keysRoot := record.mode, Some(record.seqNo), record.keys, record.keysRoot;
      headRecordHash := Some(hash);
    }

    method CheckRecord(c: Crypto, record: PolicyRecord, agentId: string, keyId: string,
                       signature: Bytes, payload: Bytes) returns (checked: Result<(), AccessError>)
      ensures checked == Model().CheckRecord(c, record, agentId, keyId, signature, payload)
    {
      if !Valid(c, record) {
        return Err(PolicyInvalid);
      }
      var expectedSeq := if seqNo.Some? then seqNo.value + 1 else 0;
      var expectedPrev := if headRecordHash.Some? then headRecordHash.value else "";
      if record.seqNo != expectedSeq || record.prevPolicy != expectedPrev {
        return Err(PolicyInvalid);
      }
      var stored := c.parseSignature(signature);
      if stored.None? {
        return Err(UnsupportedSignature);
      }
      if stored.value.version != V2 {
        return Err(SignatureVersionNotAllowed);
      }
      var signer := FindKey(if record.seqNo == 0 then record.keys else keys, agentId, keyId);
      if signer.None? {
        return Err(NotAuthorized);
      }
      var bytes := PublicKeyBytes(c, signer.value);
      if bytes.None? {
        return Err(PolicyInvalid);
      }
      checked := if c.verify(bytes.value, payload, stored.value.signature) then Ok(()) else Err(BadSignature);
    }

    method ApplyThought(c: Crypto, thought: Thought) returns (applied: Result<(), AccessError>)
      modifies this, segments
      ensures var expected := old(Model()).ApplyThought(c, thought);
              if expected.Ok? then applied.Ok? && Model() == expected.value
              else applied == Err(expected.error) && Model() == old(Model())
    {
      if thought.record.None? || !Valid(c, thought.record.value) {
        return Err(PolicyInvalid);
      }
      if thought.signature.None? {
        return Err(SignatureRequired);
      }
      if thought.keyId.None? {
        return Err(MissingSigningKeyId);
      }
      var record := thought.record.value;
      applied := CheckRecord(c, record, thought.agentId, thought.keyId.value, thought.signature.value,
                             StoredPayload(c, thought));
      if applied.Ok? {
        CommitRecord(record, thought.hash, thought.index);
      }
    }

    static method ReplayThoughts(c: Crypto, thoughts: seq<Thought>) returns (policy: AccessPolicy)
      ensures fresh(policy) && fresh(policy.segments) && policy.Model() == Replay(c, thoughts)
    {
      policy := new AccessPolicy(c);
      for i := 0 to |thoughts|
        invariant fresh(policy) && fresh(policy.segments) && policy.Model() == Replay(c, thoughts[..i])
      {
        assert thoughts[..i + 1][..i] == thoughts[..i];
        if thoughts[i].isPolicy {
          var applied := policy.ApplyThought(c, thoughts[i]);
          if applied.Err? {
            policy.invalidRecords := policy.invalidRecords + [thoughts[i].hash];
          }
        }
      }
      assert thoughts[..|thoughts|] == thoughts;
    }
  }

  // ----- What a replay accepts

  ghost predicate Accepts(c: Crypto, before: seq<Thought>, thought: Thought) {
    thought.isPolicy && Replay(c, before).ApplyThought(c, thought).Ok?
  }

  /** The governance thoughts a replay accepts, in order. */
  ghost function Accepted(c: Crypto, thoughts: seq<Thought>): (accepted: seq<Thought>)
    ensures |accepted| <= |thoughts|
    ensures forall k :: 0 <= k < |accepted| ==> accepted[k].record.Some?
  {
    if thoughts == [] then []
    else
      var before, last := thoughts[..|thoughts| - 1], thoughts[|thoughts| - 1];
      Accepted(c, before) + if Accepts(c, before, last) then [last] else []
  }

  /** The hashes of the governance thoughts a replay rejects, in order. */
  ghost function RejectedHashes(c: Crypto, thoughts: seq<Thought>): seq<string> {
    if thoughts == [] then []
    else
      var before, last := thoughts[..|thoughts| - 1], thoughts[|thoughts| - 1];
      RejectedHashes(c, before) + if last.isPolicy && !Accepts(c, before, last) then [last.hash] else []
  }

  /** `thought` carries a v2 signature by an entry of `keys`, over what its own content says. */
  ghost predicate SignedByOneOf(c: Crypto, thought: Thought, keys: seq<AllowedKey>)
    requires thought.record.Some?
  {
    && thought.signature.Some? && thought.keyId.Some?
    && var stored := c.parseSignature(thought.signature.value);
    && stored.Some? && stored.value.version == V2
    && exists key :: key in keys
                     && key.agentId == thought.agentId && key.keyId == thought.keyId.value
                     && PublicKeyBytes(c, key).Some?
                     && c.verify(PublicKeyBytes(c, key).value,
                                 c.payload(thought.agentId, thought.prevHash, thought.record.value, thought.shape),
                                 stored.value.signature)
  }

  /** When history alone lets `thought` follow the accepted records `history`: it carries the next number,
      names the last record's hash and is signed by one of that record's keys (the first record
      by one of its own). */
  ghost predicate Follows(c: Crypto, history: seq<Thought>, thought: Thought)
    requires forall k :: 0 <= k < |history| ==> history[k].record.Some?
  {
    && thought.isPolicy && thought.record.Some? && Valid(c, thought.record.value)
    && thought.record.value.seqNo == |history|
    && thought.record.value.prevPolicy == (if history == [] then "" else history[|history| - 1].hash)
    && SignedByOneOf(c, thought,
                     (if history == [] then thought else history[|history| - 1]).record.value.keys)
  }

  function CommitOf(thought: Thought): Audience.Commit
    requires thought.record.Some?
  {
    var record := thought.record.value;
    Audience.Commit(thought.index, record.mode.SegmentKind(), record.seqNo)
  }

  function Commits(history: seq<Thought>): (commits: seq<Audience.Commit>)
    requires forall k :: 0 <= k < |history| ==> history[k].record.Some?
    ensures |commits| == |history| && forall k :: 0 <= k < |history| ==> commits[k] == CommitOf(history[k])
  {
    seq(|history|, k requires 0 <= k < |history| => CommitOf(history[k]))
  }

  /** The policy a history of accepted records leaves behind. */
  ghost function Summary(c: Crypto, history: seq<Thought>, rejected: seq<string>): Policy
    requires forall k :: 0 <= k < |history| ==> history[k].record.Some?
  {
    if history == [] then NoPolicy(c).(invalidRecords := rejected)
    else
      var last := history[|history| - 1];
      var record := last.record.value;
      Policy(record.mode, Some(|history| - 1), record.keys, record.keysRoot, Some(history[0].hash), Some(last.hash),
             rejected, Audience.MapOf(Commits(history)))
  }

  /** Every accepted record follows the ones accepted before it. */
  ghost predicate Linked(c: Crypto, history: seq<Thought>)
    requires forall k :: 0 <= k < |history| ==> history[k].record.Some?
  {
    forall k :: 0 <= k < |history| ==> Follows(c, history[..k], history[k])
  }

  lemma FindKeyExact(keys: seq<AllowedKey>, agentId: string, keyId: string, key: AllowedKey)
    requires DistinctIdentities(keys) && key in keys && key.agentId == agentId && key.keyId == keyId
    ensures FindKey(keys, agentId, keyId) == Some(key)
  {
    var found := FindKey(keys, agentId, keyId);
    var j :| 0 <= j < |keys| && keys[j] == found.value;
    var k :| 0 <= k < |keys| && keys[k] == key;
    assert SameIdentity(keys[j], keys[k]) && SameIdentity(keys[k], keys[j]);
  }

  lemma ValidIsDistinct(c: Crypto, record: PolicyRecord)
    requires Valid(c, record)
    ensures DistinctIdentities(record.keys)
  {
  }

  /** Checking a record against the summary of a history is checking that it follows the history. */
  lemma ApplyIffFollows(c: Crypto, history: seq<Thought>, rejected: seq<string>, thought: Thought)
    requires forall k :: 0 <= k < |history| ==> history[k].record.Some? && Valid(c, history[k].record.value)
    requires thought.isPolicy
    ensures Summary(c, history, rejected).ApplyThought(c, thought).Ok? <==> Follows(c, history, thought)
  {
    hide PublicKeyBytes, Audience.MapOf, DistinctIdentities, FindKey;
    if thought.record.Some? && Valid(c, thought.record.value) && thought.keyId.Some? {
      hide Valid;
      var governors := (if history == [] then thought else history[|history| - 1]).record.value.keys;
      forall key | key in governors && key.agentId == thought.agentId && key.keyId == thought.keyId.value
        ensures FindKey(governors, thought.agentId, thought.keyId.value) == Some(key)
      {
        ValidIsDistinct(c, (if history == [] then thought else history[|history| - 1]).record.value);
        FindKeyExact(governors, thought.agentId, thought.keyId.value, key);
      }
    }
  }

  lemma SummaryGrows(c: Crypto, history: seq<Thought>, rejected: seq<string>, thought: Thought)
    requires forall k :: 0 <= k < |history| ==> history[k].record.Some? && Valid(c, history[k].record.value)
    requires Follows(c, history, thought)
    ensures Summary(c, history, rejected).CommitRecord(thought.record.value, thought.hash, thought.index) ==
            Summary(c, history + [thought], rejected)
  {
    hide Valid, SignedByOneOf, Audience.CommitTo;
    var all := history + [thought];
    assert Commits(all)[..|history|] == Commits(history);
    assert Commits(all)[|history|] == CommitOf(thought);
    assert history != [] ==> all[0] == history[0];
    assert Summary(c, history, rejected).segments == Audience.MapOf(Commits(history));
  }

  /** Replay: the policy is the summary of the accepted records, which are numbered from zero,
      linked by hash and each signed by a governor of the state before it; every other
      governance thought is listed as rejected. */
  lemma {:induction false} ReplayIsSummary(c: Crypto, thoughts: seq<Thought>)
    ensures var history := Accepted(c, thoughts);
            && Replay(c, thoughts) == Summary(c, history, RejectedHashes(c, thoughts))
            && Linked(c, history)
  {
    hide *;
    if thoughts == [] {
      NoHistory(c);
    } else {
      var before, last := thoughts[..|thoughts| - 1], thoughts[|thoughts| - 1];
      ReplayIsSummary(c, before);
      SummaryStep(c, before, last);
      assert thoughts == before + [last];
    }
  }

  lemma NoHistory(c: Crypto)
    ensures Accepted(c, []) == [] && RejectedHashes(c, []) == []
    ensures Replay(c, []) == Summary(c, [], []) && Linked(c, [])
  {
  }

  /** What one more thought adds to a replay that is a summary. */
  lemma SummaryStep(c: Crypto, before: seq<Thought>, last: Thought)
    requires Replay(c, before) == Summary(c, Accepted(c, before), RejectedHashes(c, before))
    requires Linked(c, Accepted(c, before))
    ensures var all := before + [last];
            && Replay(c, all) == Summary(c, Accepted(c, all), RejectedHashes(c, all))
            && Linked(c, Accepted(c, all))
  {
    hide Valid, Policy.CheckRecord, Policy.CommitRecord, Follows, Linked, Summary;
    var all := before + [last];
    ReplayMore(c, before, last);
    var history, rejected := Accepted(c, before), RejectedHashes(c, before);
    LinkedAreValid(c, history);
    assert history + [] == history && rejected + [] == rejected;
    if last.isPolicy {
      ApplyIffFollows(c, history, rejected, last);
      hide Replay, Accepted, RejectedHashes;
      if Accepts(c, before, last) {
        SummaryGrows(c, history, rejected, last);
        LinkedGrows(c, history, last);
      } else {
        SummaryRejects(c, history, rejected, last.hash);
      }
    }
  }

  /** What one more thought adds to a replay. */
  lemma ReplayMore(c: Crypto, before: seq<Thought>, last: Thought)
    ensures var all := before + [last];
            && Replay(c, all) == ReplayStep(c, Replay(c, before), last)
            && Accepted(c, all) == Accepted(c, before) + (if Accepts(c, before, last) then [last] else [])
            && RejectedHashes(c, all) ==
               RejectedHashes(c, before) + (if last.isPolicy && !Accepts(c, before, last) then [last.hash] else [])
  {
    hide ReplayStep, Accepts;
    var all := before + [last];
    assert all[..|before|] == before && all[|before|] == last;
  }

  /** A rejected record changes the list of rejected ones alone. */
  lemma SummaryRejects(c: Crypto, history: seq<Thought>, rejected: seq<string>, hash: string)
    requires forall k :: 0 <= k < |history| ==> history[k].record.Some?
    ensures Summary(c, history, rejected).invalidRecords == rejected
    ensures Summary(c, history, rejected).(invalidRecords := rejected + [hash]) ==
            Summary(c, history, rejected + [hash])
  {
    hide Audience.MapOf;
  }

  lemma LinkedAreValid(c: Crypto, history: seq<Thought>)
    requires forall k :: 0 <= k < |history| ==> history[k].record.Some?
    requires Linked(c, history)
    ensures forall k :: 0 <= k < |history| ==> Valid(c, history[k].record.value) && history[k].isPolicy
  {
    forall k | 0 <= k < |history|
      ensures Valid(c, history[k].record.value) && history[k].isPolicy
    {
      assert Follows(c, history[..k], history[k]);
    }
  }

  lemma LinkedGrows(c: Crypto, history: seq<Thought>, last: Thought)
    requires forall k :: 0 <= k < |history| ==> history[k].record.Some?
    requires Linked(c, history) && Follows(c, history, last)
    ensures last.record.Some? && Linked(c, history + [last])
  {
    var all := history + [last];
    forall k | 0 <= k < |all|
      ensures Follows(c, all[..k], all[k])
    {
      if k < |history| {
        assert all[..k] == history[..k];
        assert Follows(c, history[..k], history[k]);
      } else {
        assert all[..k] == history;
      }
    }
  }

  /** A governance thought is accepted exactly when it follows the records accepted so far. */
  lemma AcceptedIffFollows(c: Crypto, before: seq<Thought>, thought: Thought)
    ensures Accepts(c, before, thought) <==> Follows(c, Accepted(c, before), thought)
  {
    ReplayIsSummary(c, before);
    LinkedAreValid(c, Accepted(c, before));
    if thought.isPolicy {
      ApplyIffFollows(c, Accepted(c, before), RejectedHashes(c, before), thought);
    }
  }

  /** A linked history is accepted whole. */
  lemma {:induction false} LinkedIsAccepted(c: Crypto, history: seq<Thought>)
    requires forall k :: 0 <= k < |history| ==> history[k].record.Some?
    requires Linked(c, history)
    ensures Accepted(c, history) == history && RejectedHashes(c, history) == []
  {
    hide Follows, Accepts;
    if history != [] {
      var before, last := history[..|history| - 1], history[|history| - 1];
      assert forall k :: 0 <= k < |before| ==> before[..k] == history[..k];
      LinkedIsAccepted(c, before);
      AcceptedIffFollows(c, before, last);
      assert Follows(c, history[..|before|], history[|before|]);
    }
  }

  /** Dropping every rejected record changes nothing but the list of rejected records. */
  lemma RejectedRecordsDoNotMatter(c: Crypto, thoughts: seq<Thought>)
    ensures Replay(c, Accepted(c, thoughts)) == Replay(c, thoughts).(invalidRecords := [])
  {
    ReplayIsSummary(c, thoughts);
    LinkedIsAccepted(c, Accepted(c, thoughts));
    ReplayIsSummary(c, Accepted(c, thoughts));
  }

  ghost predicate Positioned(thoughts: seq<Thought>) {
    forall j, k :: 0 <= j < k < |thoughts| ==> thoughts[j].index < thoughts[k].index
  }

  lemma {:induction false} AcceptedInOrder(c: Crypto, thoughts: seq<Thought>)
    requires Positioned(thoughts)
    ensures Positioned(Accepted(c, thoughts))
    ensures forall t :: t in Accepted(c, thoughts) ==> t in thoughts
  {
    if thoughts != [] {
      var before, last := thoughts[..|thoughts| - 1], thoughts[|thoughts| - 1];
      AcceptedInOrder(c, before);
      assert forall t :: t in Accepted(c, before) ==> t.index < last.index;
    }
  }

  /** On any chain, a position reads as private exactly when it holds an accepted record or
      the last accepted record before it opened a private segment. */
  lemma ReplayedKinds(c: Crypto, thoughts: seq<Thought>, p: nat)
    requires Positioned(thoughts)
    ensures var commits := Commits(Accepted(c, thoughts));
            Replay(c, thoughts).segments.KindAt(p) == Audience.SegmentKind.Private <==>
            Audience.PrivateByHistory(commits, p)
  {
    hide *;
    SegmentsAreMapOf(c, thoughts);
    CommitsInOrder(c, thoughts);
    Audience.KindFollowsHistory(Commits(Accepted(c, thoughts)), p);
  }

  /** Appending thoughts never changes the kind of an earlier position. */
  lemma {:induction false} AppendKeepsKinds(c: Crypto, thoughts: seq<Thought>, more: seq<Thought>, p: nat)
    requires Positioned(thoughts + more)
    requires forall t :: t in more ==> p < t.index
    ensures Replay(c, thoughts + more).segments.KindAt(p) == Replay(c, thoughts).segments.KindAt(p)
    decreases |more|
  {
    if more == [] {
      assert thoughts + more == thoughts;
    } else {
      var before, last := thoughts + more[..|more| - 1], more[|more| - 1];
      assert thoughts + more == before + [last];
      assert (thoughts + more)[..|before|] == before;
      AppendKeepsKinds(c, thoughts, more[..|more| - 1], p);
      AppendOneKeepsKinds(c, before, last, p);
    }
  }

  lemma AppendOneKeepsKinds(c: Crypto, before: seq<Thought>, last: Thought, p: nat)
    requires Positioned(before + [last]) && p < last.index
    ensures Replay(c, before + [last]).segments.KindAt(p) == Replay(c, before).segments.KindAt(p)
  {
    hide Accepts, Positioned, Replay, Audience.MapOf, Audience.Segments.KindAt;
    var all, history := before + [last], Accepted(c, before);
    assert all[..|before|] == before && all[|before|] == last;
    SegmentsAreMapOf(c, before);
    SegmentsAreMapOf(c, all);
    if Accepts(c, before, last) {
      assert Accepted(c, all) == history + [last];
      assert Commits(history + [last])[..|history|] == Commits(history);
      CommitsInOrder(c, all);
      Audience.LaterCommitsKeepPast(Commits(history + [last]), |history|, p);
    } else {
      assert Accepted(c, all) == history;
    }
  }

  lemma SegmentsAreMapOf(c: Crypto, thoughts: seq<Thought>)
    ensures Replay(c, thoughts).segments == Audience.MapOf(Commits(Accepted(c, thoughts)))
  {
    ReplayIsSummary(c, thoughts);
  }

  lemma CommitsInOrder(c: Crypto, thoughts: seq<Thought>)
    requires Positioned(thoughts)
    ensures Audience.InOrder(Commits(Accepted(c, thoughts)))
  {
    AcceptedInOrder(c, thoughts);
  }
}
