/** The rules a governance record must meet to count, spelled out from its fields and signature. */
module RecordRules {
  import opened Text
  import opened Access
  import opened PolicyReplay

  /** The entry names an agent and a key, and its key text decodes to a valid public key. */
  ghost predicate Usable(c: Crypto, key: AllowedKey) {
    && Trim(key.agentId) != "" && Trim(key.keyId) != ""
    && c.fromHex(key.publicKey).Some? && c.validKey(c.fromHex(key.publicKey).value)
  }

  /** The leaves of the entries, in order. */
  ghost predicate AreLeaves(c: Crypto, keys: seq<AllowedKey>, leaves: seq<nat>) {
    && |leaves| == |keys|
    && forall k :: 0 <= k < |keys| ==>
         c.fromHex(keys[k].publicKey).Some? &&
         leaves[k] == c.leaf(keys[k].agentId, keys[k].keyId, c.fromHex(keys[k].publicKey).value)
  }

  ghost predicate Rising(leaves: seq<nat>) {
    forall j, k :: 0 <= j < k < |leaves| ==> leaves[j] < leaves[k]
  }

  /** Every rule that can be told from the record alone: its format, at most 1024 usable keys and at least one unless
      the chain is to be open, keys in strictly rising leaf order, no identity twice, and the root of the leaves. */
  ghost predicate WellFormed(c: Crypto, record: PolicyRecord) {
    && record.format == "mentisdb/access-policy/v1"
    && |record.keys| <= 1024 && (record.keys == [] ==> record.mode == Open)
    && (forall k :: 0 <= k < |record.keys| ==> Usable(c, record.keys[k]))
    && (forall j, k :: 0 <= j < k < |record.keys| ==>
          record.keys[j].agentId != record.keys[k].agentId || record.keys[j].keyId != record.keys[k].keyId)
    && exists leaves :: AreLeaves(c, record.keys, leaves) && Rising(leaves) && record.keysRoot == c.merkleRoot(leaves)
  }

  lemma {:induction false} StepsRise(leaves: seq<nat>, j: nat, k: nat)
    requires forall i :: 0 <= i < |leaves| - 1 ==> leaves[i] < leaves[i + 1]
    requires j < k < |leaves|
    ensures leaves[j] < leaves[k]
    decreases k
  {
    if j + 1 < k {
      StepsRise(leaves, j, k - 1);
    }
  }

  lemma SortedIffRising(c: Crypto, keys: seq<AllowedKey>)
    requires AllDecode(c, keys)
    ensures AreLeaves(c, keys, Leaves(c, keys))
    ensures forall leaves :: AreLeaves(c, keys, leaves) ==> leaves == Leaves(c, keys)
    ensures SortedByLeaf(c, keys) <==> Rising(Leaves(c, keys))
  {
    var leaves := Leaves(c, keys);
    if SortedByLeaf(c, keys) {
      assert forall i :: 0 <= i < |leaves| - 1 ==> leaves[i] == LeafOf(c, keys[i]) < leaves[i + 1];
      forall j, k | 0 <= j < k < |leaves|
        ensures leaves[j] < leaves[k]
      {
        StepsRise(leaves, j, k);
      }
    }
    if Rising(leaves) {
      forall k | 0 <= k < |keys| - 1
        ensures LeafOf(c, keys[k]) < LeafOf(c, keys[k + 1])
      {
        assert leaves[k] < leaves[k + 1];
      }
    }
  }

  lemma UsableIff(c: Crypto, key: AllowedKey)
    ensures Usable(c, key) <==> Named(key) && PublicKeyBytes(c, key).Some?
  {
    hide Trim;
  }

  /** The validation of a record accepts exactly the well-formed ones. */
  lemma ValidIff(c: Crypto, record: PolicyRecord)
    ensures Valid(c, record) <==> WellFormed(c, record)
  {
    forall k: nat | k < |record.keys|
      ensures Usable(c, record.keys[k]) <==> Named(record.keys[k]) && PublicKeyBytes(c, record.keys[k]).Some?
    {
      UsableIff(c, record.keys[k]);
    }
    assert DistinctIdentities(record.keys) <==>
           forall j, k :: 0 <= j < k < |record.keys| ==>
             record.keys[j].agentId != record.keys[k].agentId || record.keys[j].keyId != record.keys[k].keyId;
    hide Usable, Named, PublicKeyBytes, DistinctIdentities;
    if AllDecode(c, record.keys) {
      SortedIffRising(c, record.keys);
    }
    hide SortedByLeaf, Rising, AreLeaves, Leaves;
  }

  /** The thought is signed, in the second signature format, by the holder of one of these keys. */
  ghost predicate SignedBy(c: Crypto, t: Thought, keys: seq<AllowedKey>)
    requires t.record.Some?
  {
    && t.signature.Some? && t.keyId.Some?
    && c.parseSignature(t.signature.value).Some? && c.parseSignature(t.signature.value).value.version == V2
    && exists key :: key in keys && key.agentId == t.agentId && key.keyId == t.keyId.value && SignedWith(c, t, key)
  }

  ghost predicate SignedWith(c: Crypto, t: Thought, key: AllowedKey)
    requires t.record.Some? && t.signature.Some? && c.parseSignature(t.signature.value).Some?
  {
    && c.fromHex(key.publicKey).Some? && c.validKey(c.fromHex(key.publicKey).value)
    && c.verify(c.fromHex(key.publicKey).value, c.payload(t.agentId, t.prevHash, t.record.value, t.shape),
                c.parseSignature(t.signature.value).value.signature)
  }

  /** A replay accepts a thought exactly when it is a governance thought with a well-formed record that has the next
      number, names the hash of the last accepted thought, and is signed by a key the last accepted record lists
      (the first by one it lists itself). */
  lemma AcceptedIff(c: Crypto, before: seq<Thought>, t: Thought)
    ensures var accepted := Accepted(c, before);
            Accepts(c, before, t) <==>
            && t.isPolicy && t.record.Some? && WellFormed(c, t.record.value)
            && t.record.value.seqNo == |accepted|
            && t.record.value.prevPolicy == (if accepted == [] then "" else accepted[|accepted| - 1].hash)
            && SignedBy(c, t, (if accepted == [] then t else accepted[|accepted| - 1]).record.value.keys)
  {
    AcceptedIffFollows(c, before, t);
    hide Accepts, Accepted, WellFormed, Valid, Linked;
    if t.record.Some? {
      ValidIff(c, t.record.value);
      SignedIff(c, t);
    }
    hide SignedByOneOf, SignedBy;
  }

  lemma SignedIff(c: Crypto, t: Thought)
    requires t.record.Some?
    ensures forall keys :: SignedByOneOf(c, t, keys) <==> SignedBy(c, t, keys)
  {
  }
}
