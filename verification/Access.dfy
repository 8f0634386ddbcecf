/** Write-access policy of a chain: signed governance records and their replay. */
module Access {
  import opened Wrappers
  import opened Text
  import Audience

  type Bytes = seq<nat>

  datatype AccessMode = Open | Signed | Allowlist {
    function SegmentKind(): Audience.SegmentKind {
      if Open? then Audience.SegmentKind.Public else Audience.SegmentKind.Private
    }
  }

  datatype AllowedKey = AllowedKey(agentId: string, keyId: string, publicKey: string)

  datatype PolicyRecord = PolicyRecord(format: string, seqNo: nat, mode: AccessMode, keys: seq<AllowedKey>,
                                       keysRoot: string, prevPolicy: string)

  datatype SignatureVersion = V1 | V2
  datatype StoredSignature = StoredSignature(version: SignatureVersion, signature: Bytes)

  /** A thought as governance sees it. `record` is what its content decodes to, when it is the
      canonical encoding of a record; `shape` is everything else the signed payload covers. */
  datatype Thought = Thought(index: nat, hash: string, prevHash: string, isPolicy: bool, record: Option<PolicyRecord>,
                             agentId: string, keyId: Option<string>, signature: Option<Bytes>, shape: nat)

  /** The primitives the policy is built on, left uninterpreted. */
  datatype Crypto = Crypto(
    fromHex: string -> Option<Bytes>,
    toHex: Bytes -> string,
    validKey: Bytes -> bool,
    leaf: (string, string, Bytes) -> nat,
    merkleRoot: seq<nat> -> string,
    parseSignature: Bytes -> Option<StoredSignature>,
    verify: (Bytes, Bytes, Bytes) -> bool,
    payload: (string, string, PolicyRecord, nat) -> Bytes)

  datatype AccessError =
    | PolicyInvalid
    | SignatureRequired
    | MissingSigningKeyId
    | UnsupportedSignature
    | SignatureVersionNotAllowed
    | NotAuthorized
    | BadSignature

  const POLICY_FORMAT := "mentisdb/access-policy/v1"
  const MAX_POLICY_KEYS: nat := 1024

  // ----- Records

  function PublicKeyBytes(c: Crypto, key: AllowedKey): Option<Bytes> {
    match c.fromHex(key.publicKey)
    case None => None
    case Some(bytes) => if c.validKey(bytes) then Some(bytes) else None
  }

  function Leaf(c: Crypto, key: AllowedKey): Option<nat> {
    match PublicKeyBytes(c, key)
    case None => None
    case Some(bytes) => Some(c.leaf(key.agentId, key.keyId, bytes))
  }

  predicate AllDecode(c: Crypto, keys: seq<AllowedKey>) {
    forall k :: 0 <= k < |keys| ==> PublicKeyBytes(c, keys[k]).Some?
  }

  function LeafOf(c: Crypto, key: AllowedKey): nat
    requires PublicKeyBytes(c, key).Some?
  {
    Leaf(c, key).value
  }

  function Leaves(c: Crypto, keys: seq<AllowedKey>): (leaves: seq<nat>)
    requires AllDecode(c, keys)
    ensures |leaves| == |keys|
  {
    seq(|keys|, k requires 0 <= k < |keys| => LeafOf(c, keys[k]))
  }

  predicate Named(key: AllowedKey) {
    Trim(key.agentId) != "" && Trim(key.keyId) != ""
  }

  predicate SameIdentity(a: AllowedKey, b: AllowedKey) {
    a.agentId == b.agentId && a.keyId == b.keyId
  }

  predicate DistinctIdentities(keys: seq<AllowedKey>) {
    forall j, k :: 0 <= j < k < |keys| ==> !SameIdentity(keys[j], keys[k])
  }

  predicate SortedByLeaf(c: Crypto, keys: seq<AllowedKey>)
    requires AllDecode(c, keys)
  {
    forall k :: 0 <= k < |keys| - 1 ==> LeafOf(c, keys[k]) < LeafOf(c, keys[k + 1])
  }

  /** The rules that can be told from the record alone. */
  predicate Valid(c: Crypto, record: PolicyRecord) {
    && record.format == POLICY_FORMAT
    && |record.keys| <= MAX_POLICY_KEYS
    && (record.mode != Open ==> record.keys != [])
    && (forall k :: 0 <= k < |record.keys| ==> Named(record.keys[k]))
    && AllDecode(c, record.keys)
    && SortedByLeaf(c, record.keys)
    && DistinctIdentities(record.keys)
    && record.keysRoot == c.merkleRoot(Leaves(c, record.keys))
  }

  function InsertByLeaf(c: Crypto, key: AllowedKey, sorted: seq<AllowedKey>): (r: seq<AllowedKey>)
    requires PublicKeyBytes(c, key).Some? && AllDecode(c, sorted)
    ensures AllDecode(c, r)
  {
    if sorted == [] || LeafOf(c, key) <= LeafOf(c, sorted[0]) then [key] + sorted
    else [sorted[0]] + InsertByLeaf(c, key, sorted[1..])
  }

  function SortByLeaf(c: Crypto, keys: seq<AllowedKey>): (r: seq<AllowedKey>)
    requires AllDecode(c, keys)
    ensures AllDecode(c, r)
  {
    if keys == [] then [] else InsertByLeaf(c, keys[0], SortByLeaf(c, keys[1..]))
  }

  /** Build a record from keys in any order. */
  function NewRecord(c: Crypto, seqNo: nat, mode: AccessMode, keys: seq<AllowedKey>, prevPolicy: string)
    : Result<PolicyRecord, AccessError>
  {
    if !AllDecode(c, keys) then Err(PolicyInvalid)
    else
      var sorted := SortByLeaf(c, keys);
      var record := PolicyRecord(POLICY_FORMAT, seqNo, mode, sorted, c.merkleRoot(Leaves(c, sorted)), prevPolicy);
      if Valid(c, record) then Ok(record) else Err(PolicyInvalid)
  }

  predicate DistinctLeaves(c: Crypto, keys: seq<AllowedKey>) {
    forall j, k :: 0 <= j < k < |keys| ==> Leaf(c, keys[j]) != Leaf(c, keys[k])
  }

  /** When a key list makes a record, whatever order it comes in. */
  predicate Recordable(c: Crypto, mode: AccessMode, keys: seq<AllowedKey>) {
    && |keys| <= MAX_POLICY_KEYS
    && (mode != Open ==> keys != [])
    && (forall k :: 0 <= k < |keys| ==> Named(keys[k]))
    && AllDecode(c, keys)
    && DistinctLeaves(c, keys)
    && DistinctIdentities(keys)
  }

  lemma {:induction false} InsertByLeafPermutes(c: Crypto, key: AllowedKey, sorted: seq<AllowedKey>)
    requires PublicKeyBytes(c, key).Some? && AllDecode(c, sorted)
    ensures multiset(InsertByLeaf(c, key, sorted)) == multiset(sorted) + multiset{key}
  {
    if sorted == [] || LeafOf(c, key) <= LeafOf(c, sorted[0]) {
    } else {
      InsertByLeafPermutes(c, key, sorted[1..]);
      assert sorted == [sorted[0]] + sorted[1..];
    }
  }

  ghost predicate LeavesAscend(c: Crypto, keys: seq<AllowedKey>)
    requires AllDecode(c, keys)
  {
    forall j, k :: 0 <= j < k < |keys| ==> LeafOf(c, keys[j]) <= LeafOf(c, keys[k])
  }

  lemma {:induction false} InsertByLeafOrders(c: Crypto, key: AllowedKey, sorted: seq<AllowedKey>)
    requires PublicKeyBytes(c, key).Some? && AllDecode(c, sorted) && LeavesAscend(c, sorted)
    ensures LeavesAscend(c, InsertByLeaf(c, key, sorted))
  {
    hide LeafOf;
    if sorted == [] || LeafOf(c, key) <= LeafOf(c, sorted[0]) {
    } else {
      var rest := InsertByLeaf(c, key, sorted[1..]);
      InsertByLeafOrders(c, key, sorted[1..]);
      InsertByLeafPermutes(c, key, sorted[1..]);
      forall k | 0 <= k < |rest|
        ensures LeafOf(c, sorted[0]) <= LeafOf(c, rest[k])
      {
        assert rest[k] in multiset(rest);
      }
    }
  }

  lemma {:induction false} SortByLeafOrders(c: Crypto, keys: seq<AllowedKey>)
    requires AllDecode(c, keys)
    ensures multiset(SortByLeaf(c, keys)) == multiset(keys)
    ensures LeavesAscend(c, SortByLeaf(c, keys))
  {
    hide LeavesAscend, InsertByLeaf;
    if keys == [] {
      assert LeavesAscend(c, []) by { NothingAscends(c); }
    } else {
      SortByLeafOrders(c, keys[1..]);
      InsertByLeafOrders(c, keys[0], SortByLeaf(c, keys[1..]));
      InsertByLeafPermutes(c, keys[0], SortByLeaf(c, keys[1..]));
      assert keys == [keys[0]] + keys[1..];
    }
  }

  lemma NothingAscends(c: Crypto)
    ensures LeavesAscend(c, [])
  {
  }

  /** No two entries stand in the relation. */
  ghost predicate NoClash(clash: (AllowedKey, AllowedKey) -> bool, keys: seq<AllowedKey>) {
    forall j, k :: 0 <= j < k < |keys| ==> !clash(keys[j], keys[k])
  }

  ghost predicate Symmetric(clash: (AllowedKey, AllowedKey) -> bool) {
    forall a, b :: clash(a, b) == clash(b, a)
  }

  lemma NoClashCons(clash: (AllowedKey, AllowedKey) -> bool, key: AllowedKey, keys: seq<AllowedKey>)
    ensures NoClash(clash, [key] + keys) <==>
            NoClash(clash, keys) && forall k :: k in multiset(keys) ==> !clash(key, k)
  {
    var all := [key] + keys;
    assert all[0] == key && forall k :: 0 <= k < |keys| ==> all[k + 1] == keys[k];
    if NoClash(clash, all) {
      NoClashTail(clash, all);
      assert all[1..] == keys;
    }
    if NoClash(clash, keys) && forall k :: k in multiset(keys) ==> !clash(key, k) {
      forall j, k | 0 <= j < k < |all|
        ensures !clash(all[j], all[k])
      {
        assert keys[k - 1] in multiset(keys);
      }
    }
  }

  lemma NoClashTail(clash: (AllowedKey, AllowedKey) -> bool, all: seq<AllowedKey>)
    requires all != [] && NoClash(clash, all)
    ensures NoClash(clash, all[1..]) && forall k :: k in multiset(all[1..]) ==> !clash(all[0], k)
  {
    forall k | k in multiset(all[1..])
      ensures !clash(all[0], k)
    {
      var i :| 0 <= i < |all[1..]| && all[1..][i] == k;
      assert !clash(all[0], all[i + 1]);
    }
  }

  lemma {:induction false} InsertNoClash(c: Crypto, clash: (AllowedKey, AllowedKey) -> bool, key: AllowedKey,
                                         sorted: seq<AllowedKey>)
    requires PublicKeyBytes(c, key).Some? && AllDecode(c, sorted) && Symmetric(clash)
    ensures NoClash(clash, InsertByLeaf(c, key, sorted)) <==> NoClash(clash, [key] + sorted)
  {
    hide NoClash;
    if sorted == [] || LeafOf(c, key) <= LeafOf(c, sorted[0]) {
    } else {
      var first, rest := sorted[0], sorted[1..];
      InsertNoClash(c, clash, key, rest);
      InsertByLeafPermutes(c, key, rest);
      assert sorted == [first] + rest;
      NoClashCons(clash, first, InsertByLeaf(c, key, rest));
      NoClashCons(clash, key, rest);
      NoClashCons(clash, key, sorted);
      NoClashCons(clash, first, rest);
      assert clash(key, first) == clash(first, key);
    }
  }

  /** Sorting neither makes nor removes a clash. */
  lemma {:induction false} SortNoClash(c: Crypto, clash: (AllowedKey, AllowedKey) -> bool, keys: seq<AllowedKey>)
    requires AllDecode(c, keys) && Symmetric(clash)
    ensures NoClash(clash, SortByLeaf(c, keys)) <==> NoClash(clash, keys)
  {
    if keys == [] {
    } else {
      var sorted := SortByLeaf(c, keys[1..]);
      SortNoClash(c, clash, keys[1..]);
      SortByLeafOrders(c, keys[1..]);
      InsertNoClash(c, clash, keys[0], sorted);
      NoClashCons(clash, keys[0], sorted);
      NoClashCons(clash, keys[0], keys[1..]);
      assert keys == [keys[0]] + keys[1..];
    }
  }

  /** A key list makes a record exactly when it is recordable; the record holds the same
      entries, in leaf order, and meets every rule. */
  lemma NewRecordIff(c: Crypto, seqNo: nat, mode: AccessMode, keys: seq<AllowedKey>, prevPolicy: string)
    ensures var made := NewRecord(c, seqNo, mode, keys, prevPolicy);
            && (made.Ok? <==> Recordable(c, mode, keys))
            && (made.Ok? ==>
                  && Valid(c, made.value)
                  && multiset(made.value.keys) == multiset(keys)
                  && made.value.seqNo == seqNo && made.value.mode == mode && made.value.prevPolicy == prevPolicy)
  {
    hide Named, LeafOf, SortByLeaf, DistinctLeaves, DistinctIdentities, SortedByLeaf, Leaves, PublicKeyBytes;
    if AllDecode(c, keys) {
      var sorted := SortByLeaf(c, keys);
      SortByLeafOrders(c, keys);
      SortKeepsRules(c, keys);
      assert |multiset(sorted)| == |multiset(keys)|;
    }
  }

  ghost function Identity(): (AllowedKey, AllowedKey) -> bool {
    (a, b) => SameIdentity(a, b)
  }

  ghost function SameLeaf(c: Crypto): (AllowedKey, AllowedKey) -> bool {
    (a, b) => Leaf(c, a) == Leaf(c, b)
  }

  lemma SortKeepsRules(c: Crypto, keys: seq<AllowedKey>)
    requires AllDecode(c, keys)
    ensures var sorted := SortByLeaf(c, keys);
            && (DistinctIdentities(sorted) <==> DistinctIdentities(keys))
            && (SortedByLeaf(c, sorted) <==> DistinctLeaves(c, keys))
            && ((forall k :: 0 <= k < |sorted| ==> Named(sorted[k])) <==>
               (forall k :: 0 <= k < |keys| ==> Named(keys[k])))
  {
    SortKeepsIdentities(c, keys);
    SortKeepsLeaves(c, keys);
    SortKeepsNames(c, keys);
  }

  lemma SortKeepsIdentities(c: Crypto, keys: seq<AllowedKey>)
    requires AllDecode(c, keys)
    ensures DistinctIdentities(SortByLeaf(c, keys)) <==> DistinctIdentities(keys)
  {
    SortNoClash(c, Identity(), keys);
    assert NoClash(Identity(), keys) <==> DistinctIdentities(keys);
  }

  lemma SortKeepsLeaves(c: Crypto, keys: seq<AllowedKey>)
    requires AllDecode(c, keys)
    ensures SortedByLeaf(c, SortByLeaf(c, keys)) <==> DistinctLeaves(c, keys)
  {
    SortByLeafOrders(c, keys);
    SortNoClash(c, SameLeaf(c), keys);
    StrictIffDistinct(c, SortByLeaf(c, keys));
    assert NoClash(SameLeaf(c), keys) <==> DistinctLeaves(c, keys);
  }

  lemma SortKeepsNames(c: Crypto, keys: seq<AllowedKey>)
    requires AllDecode(c, keys)
    ensures (forall k :: 0 <= k < |SortByLeaf(c, keys)| ==> Named(SortByLeaf(c, keys)[k])) <==>
            (forall k :: 0 <= k < |keys| ==> Named(keys[k]))
  {
    hide Named;
    var sorted := SortByLeaf(c, keys);
    SortByLeafOrders(c, keys);
    assert forall k :: 0 <= k < |sorted| ==> sorted[k] in multiset(keys);
    assert forall k :: 0 <= k < |keys| ==> keys[k] in multiset(sorted);
  }

  lemma StrictIffDistinct(c: Crypto, sorted: seq<AllowedKey>)
    requires AllDecode(c, sorted) && LeavesAscend(c, sorted)
    ensures SortedByLeaf(c, sorted) <==> NoClash(SameLeaf(c), sorted)
  {
    if SortedByLeaf(c, sorted) {
      forall j, k | 0 <= j < k < |sorted|
        ensures Leaf(c, sorted[j]) != Leaf(c, sorted[k])
      {
        assert LeafOf(c, sorted[j]) < LeafOf(c, sorted[j + 1]) <= LeafOf(c, sorted[k]);
      }
    }
  }
}
