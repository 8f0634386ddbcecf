# MentisDB in Dafny

MentisDB stores what agents remember as chains of hashed thoughts that only ever grow. This project models its
hardest logic and proves what that logic is for. One module per component:

| module | component |
|---|---|
| `Similarity`, `RareFirst`, `SortedLists`, `PairwiseScan`, `PrefixIndex`, `CollapseHits` | near-duplicate collapsing of ranked hits: the pairwise scan, the prefix-filtered index that must answer the same, and the folding of hits |
| `UnionFind`, `Clusters` | near-duplicate clusters of the recall audit, over a union-find array with path compression |
| `LineageIndex`, `VersionView`, `ChainGrowth`, `StrongLinks`, `ReplacedThoughts` | the "newer replaces or contests older" index, what one reader sees of it at one instant, how both grow with an append, and what both say in terms of the stored relations |
| `LiveSuccessor`, `DepthCheck`, `LineageBudget` | the bounded walk to the live version of a thought, the check on appends that bounds chains of versions, and exactly how much of a graph the walk covers |
| `Redirect`, `RedirectSafety`, `ContestedHits`, `RedirectScores` | rewriting ranked hits so that no reader is left with a stale version, exactly which contested hits come out ahead of their contester, and with which scores and names |
| `Privacy`, `GovernedPrivacy` | what a public reader is told does not depend on what is appended out of its sight, in particular on a chain whose policy is not open |
| `Audience`, `SegmentList` | public and private segments and the position lookup by binary search |
| `Access`, `PolicyReplay`, `RecordRules`, `RecordedAudience` | signed governance records, the policy a replay of them gives, the rules records must meet, and whom the chain then shows what |
| `Operator`, `OperatorSafety`, `AgentRegistry`, `PolicyEdits`, `OperatorRecords`, `OperatorShutOut`, `OperatorLimits` | the operator's commands as steps over chain, policy and key registry, what each changes and leaves alone, invariants over every run of them, when none of them can change the policy any more, and exactly when control can be lost, for a while or for good |
| `ChainNames`, `Restore` | restoring a backup: file names and free keys, classification of two chains, the import |
| `TokenStore`, `TokenGrants` | the bearer-token registry that buffers last-use times, and who is let in by it |
| `Text`, `PromptText` | white space, control characters and trimming; rendering stored text into one line of a prompt |
| `ReadAuth` | the bytes a read proof signs |

Code that updates state step by step is an imperative method or class proved equal to a
specification function (`PrefixIndex.Probe` and its postings array, `UnionFind.Find`,
`LineageIndex.Index`, `Audience.SegmentMap`, `PolicyReplay.AccessPolicy`, `Operator.GovernedChain`,
`Restore.Directory`, `TokenStore.BearerTokenStore`, and so on); the properties are lemmas about those
functions. Signatures, digests, Merkle roots, payload encodings, upper-casing, fingerprints and the
caller's filters are function-valued parameters. Where a result needs them to behave (a signature that
verifies, digests without collisions, a 32-byte digest), the assumption is a named predicate in the
`requires` clause. `LineageIndex.Thought` and `Access.Thought` are two projections of a stored thought: its
links, and its governance content.

Where the code does not do what its documentation says, the model follows the code:

- The comment on the depth check of appends (`src/lib.rs:8422-8428`) and the module text
  (`src/lineage.rs:74-76`) say that reads follow supersessions as far as the limit of 64 versions.
  The walk counts the thoughts it takes from its stack, not the length of a path. A thought with many
  parallel replacements uses the limit up at path length two, and every append that builds such a chain
  passes the check (`LineageBudget.FanPassesCheck`; what the check refuses is `DepthCheck.AcceptsIff`).
  `LineageBudget.BudgetIsExact` gives the exact number of links for which the walk is always complete.
- `query_ranked` is documented to put the contesting thought ahead of every contested hit
  (`src/lineage.rs:791-797`). A thought brought in as another hit's successor or contester does not bring in
  its own contester, and a raw hit for it is passed over. `ContestedHits.ContesterLeftOut` shows it on one
  superseded hit, and on that hit followed by its successor's own: the output is the contested successor alone.
  `ContestedHits.ContesterIsAheadIff` says for every raw list which contested thoughts of the output come behind
  their contester, whether or not they were raw hits.
- `revoke` and `delete` return the record as it is on file, without a buffered last-use time that `list`
  shows; `TokenStore.Matches` pins that time down.
- The module text on operators says that the operator can always take the chain back and that a policy can
  never lock out its own operator (`src/operator.rs:19-23`). It can: `OperatorLimits.OperatorCanBeLockedOut` is a
  run from a new chain that registers another key under the operator's agent and key id, closes the chain and
  then allows that key. After it every record the operator signs is refused, so no run of commands changes the
  policy or gives control back (`OperatorShutOut.RunShutOut`). `OperatorLimits.EndsControlIff` says for every
  command when it ends control. `OperatorLimits.NeverLockedOutIff` says that an operator in control keeps it
  through every run, and can take it back after every run, exactly when the registry holds its key id for its own
  key or for a revoked one.

## Model

| member | source | states |
|---|---|---|
| `Similarity.NearSharesFraction` | src/lineage.rs:1286-1291 | two sets that reach a positive threshold share a token, and at least that fraction of either set, which is the bound the prefix filter rests on |
| `Similarity.SizeRatioBounds` | src/lineage.rs:1340-1347 | a pair whose size ratio is below the threshold cannot reach it, so checking the ratio first rejects no match |
| `PairwiseScan.IdJaccard` | src/lineage.rs:1247-1264 | the two-index merge over sorted lists computes shared tokens over all tokens of the two sets, empty sets included |
| `PairwiseScan.NaiveSlots` | src/lineage.rs:1272-1290 | each set gets the first earlier survivor it reaches the threshold with, or survives, for any threshold |
| `PairwiseScan.FirstMatch` | src/lineage.rs:1278-1280 | a match is a survivor that reaches the threshold and none before it does; no match means none does |
| `RareFirst.MinOverlapIsShared` | src/lineage.rs:1292-1294 | the rounded-down bound, clamped to one token and the set size, never exceeds what a near-duplicate shares |
| `RareFirst.SortOrders` | src/lineage.rs:1312-1315 | sorting by (frequency, id) permutes the set into a strict order |
| `RareFirst.OrderedPrefixesMeet` | src/lineage.rs:1299-1303 | two lists in one strict order share a token within any prefixes that leave out fewer tokens than the lists share |
| `RareFirst.NearPrefixesMeet` | src/lineage.rs:1299-1303 | two non-empty sets at or above the threshold share a token of both their rarest-first prefixes |
| `PrefixIndex.CountTokens` | src/lineage.rs:1308-1311 | after the nested loops every token's frequency is the number of sets that hold it |
| `PrefixIndex.Reaches` | src/lineage.rs:1339-1349 | the exact check of a candidate (size ratio, then intersection) answers whether the pair reaches the threshold |
| `PrefixIndex.ProbeReachesMatch` | src/lineage.rs:1332-1334 | every survivor a set duplicates is in one of the posting lists the set walks |
| `PrefixIndex.Probe` | src/lineage.rs:1332-1351 | walking the posting lists looks at every listed survivor (none is lost to the visited mark or the smallest-slot shortcut) and ends with the smallest that matches |
| `PrefixIndex.SurvivorIndexed` | src/lineage.rs:1352-1358 | listing a new survivor under its prefix keeps the postings exact: a slot is under a token exactly when its prefix has the token |
| `PrefixIndex.FilteredSlots` | src/lineage.rs:1307-1363 | for every positive threshold the index returns exactly the slots of the pairwise scan, with every index in bounds |
| `CollapseHits.InterningKeepsJaccard` | src/lineage.rs:1392-1406 | replacing tokens by interned ids changes no similarity |
| `CollapseHits.InternHits` | src/lineage.rs:1392-1406 | each id list is increasing and holds exactly the ids of the hit's tokens, one id per token, all below the number of tokens |
| `CollapseHits.ScanPartitions` | src/lineage.rs:1272-1290 | the scan partitions the hits: survivors are pairwise below the threshold, and every other hit is given the first higher-ranked survivor it repeats |
| `CollapseHits.CollapseDuplicateHits` | src/lineage.rs:1387-1423 | survivors are kept in rank order, each dropped hit is listed on exactly one kept, higher-ranked hit it repeats; from hits nothing was folded into yet, as a ranking returns them, the thoughts that come out are exactly those that went in |
| `CollapseHits.FoldedAre` | src/lineage.rs:1414-1421 | what is folded into a kept hit are the thoughts of exactly the hits given its slot, in rank order |
| `CollapseHits.NothingLost` | src/lineage.rs:1414-1421 | nothing is left out of the fold exactly when no dropped hit had anything folded into it, which holds of every ranking's hits |
| `UnionFind.CompressKeepsRoots` | examples/recall_audit.rs:534-539 | pointing an element at its root keeps the forest and every element's root |
| `UnionFind.Find` | examples/recall_audit.rs:529-541 | both loops end, the root of the old forest is returned, and compression changes no root |
| `UnionFind.UnionMergesRoot` | examples/recall_audit.rs:549-550 | hanging one root under another merges exactly their two trees |
| `Clusters.RootsAreComponents` | examples/recall_audit.rs:518-566 | in a forest that describes a graph, two elements share a root exactly when a path joins them |
| `Clusters.DescribesUnion` | examples/recall_audit.rs:549-550 | joining the roots of an edge's ends makes the forest describe the graph with that edge |
| `Clusters.SkipIsSafe` | examples/recall_audit.rs:545-547 | the size shortcut skips no pair with Jaccard at least 0.85 |
| `Clusters.JoinNearPairs` | examples/recall_audit.rs:542-558 | the pair loops leave a forest that describes the near-duplicate graph and count its pairs inside and outside the 64-thought window |
| `Clusters.DuplicateReport` | examples/recall_audit.rs:518-563 | the clusters are the connected components of the near-duplicate graph over the live thoughts, each listing its members oldest first, with the exact pair counts |
| `Clusters.LiveIndicesAre` | examples/recall_audit.rs:518-524 | the live thoughts are exactly those whose id is not in the set of invalidated ones, oldest first |
| `LineageIndex.BestIsFirstStrongest` | src/lineage.rs:546-574 | the link a source keeps into a target is the first of its strongest links, and there is one whenever a link targets it |
| `LineageIndex.Index.AddLink` | src/lineage.rs:546-574 | a self-link changes nothing; a second link from one source replaces the edge only when strictly stronger; otherwise an edge is added at the end |
| `LineageIndex.AddAllIsBest` | src/lineage.rs:546-574 | adding a source's links one by one leaves, for every target, one edge for the first strongest |
| `LineageIndex.SkippedRefsDoNotMatter` | src/lineage.rs:520-543 | skipping references to targets a relation already links, or to the thought itself, changes no best link |
| `LineageIndex.Index.ObserveThought` | src/lineage.rs:475-544 | one observe call leaves both maps as the specification says, same-chain edges and cross-chain edges apart |
| `StrongLinks.ClaimTable` | src/lineage.rs:438-468 | which claim every link makes: the four typed ones by their relation, a contest exactly for a correction by any plain mention and for a change of policy by a plain reference to a decision, constraint, preference, plan or strategy |
| `StrongLinks.EdgeKindIff` | src/lineage.rs:475-574 | the one edge a thought keeps into another is strong exactly when one of its same-chain relations supersedes, corrects or invalidates it, a contradiction when one only contradicts it, and a contest when one only mentions it as above |
| `StrongLinks.StrongEdgeIsKept` | src/lineage.rs:546-574 | a strong edge carries the kind and the validity of the first such relation |
| `StrongLinks.CrossHolds` | src/lineage.rs:487-509 | for a thought of another chain exactly the superseding, correcting and invalidating relations into it are recorded, in order |
| `LineageIndex.ObserveAdds` | src/lineage.rs:475-574 | observing a thought adds to the edges into each target exactly its first strongest link over all its relations and references |
| `LineageIndex.EdgeSources` | src/lineage.rs:546-556 | every edge comes from a thought of the chain, and no thought has an edge into itself |
| `LineageIndex.EdgeSourcesDistinct` | src/lineage.rs:557-573 | there is at most one edge per target and source |
| `LineageIndex.IndexHolds` | src/lineage.rs:475-574 | after observing any chain the index holds, for each target and in chain order, exactly the first strongest link of every thought that has one |
| `LineageIndex.RebuildEqualsLive` | src/lib.rs:6365-6378 | the index rebuilt on open equals the one kept up to date by appends when no thought names a later one |
| `ChainGrowth.AppendEdges` | src/lib.rs:7071-7075 | an append adds to the edges into each target at most the new thought's own |
| `ChainGrowth.AppendInvalidatingEdges` | src/lib.rs:4837-4855 | an append adds to the invalidating links of each target exactly the new thought's, in order |
| `ChainGrowth.AppendKeepsValid` | src/lib.rs:7048-7075 | positions, ids and both link indexes stay consistent under every append |
| `ReplacedThoughts.AppendsKeepIndexed` | src/lib.rs:7048-7075 | however many thoughts are appended, the invalidation index holds exactly the stored relations that take a thought out of force, and the link index a strong edge for exactly the thoughts that replace an earlier one |
| `ReplacedThoughts.InvalidatedIff` | src/lib.rs:13591-13630 | a reader is told that a thought is superseded exactly when a stored superseding, correcting or invalidating relation into it has begun and not ended at the instant read at (and now), has effect on this chain, and comes from where the reader may look |
| `ReplacedThoughts.AuthorizedIff` | src/lib.rs:8368-8402 | a link has effect exactly when it was written in a public segment, or by a signed thought that passed verification and is by the target's agent or a key the chain trusts |
| `ReplacedThoughts.StatusIff` | src/lineage.rs:621-639 | superseded when out of force, contested when in force but linked to by some visible link in force, current otherwise |
| `LiveSuccessor.Follow` | src/lineage.rs:653-686 | the loop over stack, visited set and best ends on every graph, cycles included, and returns what the walk function returns |
| `LiveSuccessor.ImprovedIs` | src/lineage.rs:676-682 | looking at a thought's replacements leaves the newest live one seen so far |
| `LiveSuccessor.SuccessorIsLiveEnd` | src/lineage.rs:653-686 | any result is live and reached by visible authorized strong links through superseded thoughts, and no live direct replacement is newer |
| `LiveSuccessor.SuccessorIsNewest` | src/lineage.rs:653-686 | with fewer than 64 links to superseded thoughts in the reachable part, the newest live end is found whenever there is one, in whatever order links are visited |
| `ReplacedThoughts.StrongSourceIff` | src/lineage.rs:589-619 | the walk follows from a thought to a later one exactly when that one replaces it by a relation in force that the reader may see and that has effect |
| `ReplacedThoughts.ReplacedHasSuccessor` | src/lineage.rs:653-686 | a thought that a live one replaces by such a relation is out of force, and the walk finds a live thought for it that is not older |
| `LiveSuccessor.NewestLiveIs` | src/lineage.rs:689-701 | the contester is a live weak source and none is newer |
| `ReplacedThoughts.ContesterIs` | src/lineage.rs:689-701 | the contester of a thought is a live source of a visible, effective contradiction or contest in force, there is one whenever there is such a source, and no such source is newer |
| `LineageBudget.DepthLimitMissesNewest` | src/lineage.rs:663-667 | for every number of links from 64 on, a chain with that many links on which the walk returns an older live end than the newest |
| `LineageBudget.BudgetIsExact` | src/lineage.rs:121-125 | a number of links to superseded thoughts guarantees the newest live end on every chain exactly when it is below 64 |
| `DepthCheck.AcceptsIff` | src/lib.rs:8422-8480 | an append passes exactly when every chain of versions it extends has at most 63, whatever lengths were found and kept on the way; cycles are refused |
| `DepthCheck.ReplacedAre` | src/lib.rs:8434-8437 | the versions a thought extends are the targets of its relations that supersede, correct or invalidate on the same chain |
| `LineageBudget.FanPassesCheck` | src/lib.rs:8429-8453 | every append that builds a chain on which the walk misses the newest version passes the check |
| `Redirect.PlaceHit` | src/lineage.rs:891-914 | a thought already placed only names one more older thought; a new one takes its own raw hit or the template, the higher score, and the name of what it stands for |
| `Redirect.RedirectHits` | src/lineage.rs:874-948 | the pass with its position maps produces the redirected hits of the specification, whatever the raw list |
| `RedirectSafety.RedirectedIsSound` | src/lineage.rs:874-948 | output thoughts are distinct and none is superseded, every live raw hit is kept, every superseded one with an allowed live successor has it in the output naming it, and every thought not in the raw list replaces or contests the raw hits it names |
| `ReplacedThoughts.ReplacedComesOut` | src/lineage.rs:916-928 | with nothing filtered out, a hit that a live thought replaces leaves in the output a live thought that is not older and names it |
| `RedirectScores.ComesOutWith` | src/lineage.rs:891-945 | the score and the names of every output hit: one brought in by its own live hit keeps that hit's score and names; one brought in for another hit has the larger of its own raw score (the hit's when it has none) and the hit's, raised by 0.001 when the hit is live; further names are exactly those of the hits it comes in for |
| `RedirectScores.OthersAreAllowed` | src/lineage.rs:920-933 | whatever the output holds that is not a raw hit's thought passes the request's filter |
| `RedirectSafety.SuccessorScores` | src/lineage.rs:908-910 | from falling scores the successor of each replaced hit scores at least that hit's total |
| `RedirectSafety.ContesterScores` | src/lineage.rs:930-945 | a live hit emitted on its own turn comes after its allowed contester, which scores at least as much |
| `ContestedHits.BroughtIsHad` | src/lineage.rs:916-945 | the thoughts brought in turn by turn, told from the reader's view and the raw hits alone, are exactly those in the output |
| `ContestedHits.SomeHitBrings` | src/lineage.rs:916-945 | every thought of the output is first brought in by the turn of one raw hit |
| `ContestedHits.ContesterIsAheadIff` | src/lineage.rs:916-945 | a contested thought of the output, raw hit or not, comes behind its allowed contester exactly when the first hit to bring it in is its own, or the contester was brought in at an earlier turn |
| `ContestedHits.ContesterLeftOut` | src/lineage.rs:916-929 | a decision, its replacement and a correction of the replacement: redirecting the decision's hit alone, or with the replacement's, gives one hit, for the contested replacement, and no contester |
| `RedirectSafety.SortKeepsOrder` | src/lineage.rs:908-910 | a hit ahead of another that it does not trail in score is still ahead after a stable sort by score |
| `RedirectSafety.ContesterStaysAhead` | src/lineage.rs:131-133 | sorting redirected hits by score again cannot put a contested hit before the contester it was emitted with |
| `Privacy.InvalidatedIsSeen` | src/lib.rs:13591-13627 | for a public reader a thought is superseded exactly when some invalidating link it may see is in force, on chains with and without private segments |
| `Privacy.HiddenAppendAlike` | src/lineage.rs:592-612 | an append at a position hidden from public readers changes, for no thought, whether it is superseded, which links into it are seen, or who replaces or contests it |
| `Privacy.HiddenAppendsChangeNothing` | src/lineage.rs:592-701 | any number of hidden appends leave a public reader the same status, live successor and live contester of every thought, and the same redirected hits |
| `Privacy.HistoryHides` | src/audience.rs:274-303 | on a chain with a history of records, a new position is hidden and earlier ones are shown as before exactly when it is a record or follows a record that opened a private segment |
| `GovernedPrivacy.ClosedAppendIsHidden` | src/access.rs:785-848 | a thought appended while the policy in force is not open is hidden from public readers, record or not, and nothing before it changes |
| `GovernedPrivacy.ClosedChainTellsNothing` | src/lineage.rs:592-701 | any run of appends to such a chain leaves a public reader the same statuses, successors, contesters and redirected hits |
| `Audience.BinarySearch` | src/audience.rs:278-280 | on an increasing list the search finds a position exactly when it is listed |
| `Audience.PartitionPoint` | src/audience.rs:281-287 | the search returns the number of segments that start at or before a position |
| `Audience.CommitKindAt` | src/access.rs:785-808 | a record committed at a position makes it private, gives later positions the kind of its mode and changes no earlier one |
| `Audience.KindFollowsHistory` | src/audience.rs:274-288 | the lookup by binary search answers the plain history rule: private exactly for a record or after a record whose mode is not open |
| `Audience.LaterCommitsKeepPast` | src/audience.rs:202-257 | later records never change the kind of an earlier position |
| `Audience.VisibleByHistory` | src/audience.rs:292-303 | an authorized reader sees every position not quarantined, a public one the public ones among them, nobody anything of a locked chain |
| `Audience.PushAtEnd` | src/audience.rs:245-255 | a segment pushed at or after every known start ends up last, the segments before it as they were but for one with the same start, and the map stays sorted |
| `Audience.SegmentMap.Push` | src/audience.rs:245-255 | the fields take that step, and a segment before the last start changes nothing |
| `Audience.SegmentMap.PushRecord` | src/audience.rs:202-206 | the record positions stay strictly increasing, and gain the new one exactly when it lies after all of them |
| `Audience.SegmentMap.SetQuarantine` | src/audience.rs:209-213 | the list is strictly increasing, and the lookup finds a position in it exactly when it was given |
| `SegmentList.FromSegmentsGoverns` | src/audience.rs:176-187 | a map built from any list is sorted and gives each position the kind of the segment that starts last at or before it, the last listed of several |
| `SortedLists.SortDedupIncreasing` | src/audience.rs:209-213 | sorting and dropping repeats leaves a strictly increasing list |
| `Access.SortNoClash` | src/access.rs:555-577 | sorting keys by leaf neither makes nor removes a clash between two of them |
| `Access.NewRecordIff` | src/access.rs:555-648 | a key list in any order makes a record exactly when it is within the size limit, named, decodable, without repeated leaf or identity, and non-empty unless the mode is open; the record holds the same keys and passes validation |
| `PolicyReplay.AccessPolicy.CheckRecord` | src/access.rs:738-780 | the check returns the first rule a proposed record breaks, in the order of the code, or accepts it |
| `PolicyReplay.SummaryGrows` | src/access.rs:785-808 | committing a record that follows a history leaves the policy of the longer history: its mode, keys, number, head and segments, and the genesis set once |
| `PolicyReplay.AccessPolicy.CommitRecord` | src/access.rs:785-808 | the object's fields and its segment map take that step |
| `PolicyReplay.AccessPolicy.ApplyThought` | src/access.rs:816-829 | a rejected governance thought leaves the policy as it was and says why; an accepted one is committed |
| `PolicyReplay.AccessPolicy.ReplayThoughts` | src/access.rs:834-848 | replaying a chain gives the policy of the replay function |
| `PolicyReplay.ReplayIsSummary` | src/access.rs:834-848 | over any history the accepted records are numbered 0, 1, 2 and so on, each names the hash of the one before and is signed by a key of the one before (the first by its own), and the policy is what the first, the last and their positions say |
| `PolicyReplay.AcceptedIffFollows` | src/access.rs:738-829 | a governance thought is accepted exactly when it follows the records accepted so far |
| `RecordRules.ValidIff` | src/access.rs:609-648 | validation accepts exactly the records of the format with at most 1024 usable keys (none only for open), in strictly rising leaf order, no identity twice, and the Merkle root of the leaves |
| `RecordRules.AcceptedIff` | src/access.rs:738-829 | a replay accepts a thought exactly when it holds a well-formed record with the next number and the last accepted thought's hash, signed in the second format over its own content by a valid key that the last accepted record lists (the first by one of its own) |
| `PolicyReplay.RejectedRecordsDoNotMatter` | src/access.rs:834-848 | dropping every rejected record gives the same policy but for the list of rejected ones |
| `PolicyReplay.ReplayedKinds` | src/audience.rs:274-288 | on any chain a position is private exactly when it holds an accepted record or the last accepted one before it opened a private segment |
| `RecordedAudience.PrivateIff` | src/access.rs:390-394 | on any chain a position is private exactly when it holds an accepted record or the last accepted record before it has mode signed or allowlist; every other one is public |
| `RecordedAudience.ShownIff` | src/audience.rs:289-312 | authorized readers are shown every position that passed verification, public readers those that are public besides |
| `RecordedAudience.OpenRecordShows` | src/access.rs:793-799 | what follows an accepted open record, up to the next accepted one, is shown to everybody if it passed verification |
| `PolicyReplay.AppendKeepsKinds` | src/access.rs:785-848 | appending any thoughts changes the kind of no earlier position |
| `Operator.GovernedChain.Apply` | src/operator.rs:584-727 | each command does to chain, policy and registry what the specification says, and reports the same result |
| `Operator.GovernedChain.SetMode` | src/operator.rs:592-625 | a mode change registers the given keys, puts the operator's own first, and commits unless nothing would change |
| `Operator.GovernedChain.Commit` | src/operator.rs:505-534 | registering the operator, building, signing, checking and committing a record, with each refusal leaving chain and policy alone |
| `Text.TrimIs` | src/operator.rs:456 | trimming takes white space off both ends, all of it and nothing else |
| `AgentRegistry.LabelIff` | src/operator.rs:455-465 | agent and key ids are accepted exactly when they are not blank, at most 256 bytes long in UTF-8 and without control characters |
| `AgentRegistry.UpsertAdds` | src/operator.rs:536-544 | a key is registered exactly when it is usable and its ids are free or hold this very key, not revoked; nothing else in the registry changes |
| `AgentRegistry.RevokeKeyRevokes` | src/operator.rs:697-706 | revoking succeeds exactly for a registered key other than the operator's own, and marks that key and nothing else |
| `AgentRegistry.StandingChanges` | src/operator.rs:707-718 | disabling and enabling set the standing of exactly that agent and touch no key |
| `AgentRegistry.RevokedForGood` | src/operator.rs:584-727 | a revoked key is still revoked after every run of commands, and every command that would register, allow or list it fails and leaves chain and policy as they were |
| `PolicyEdits.DenyKeyDrops` | src/operator.rs:658-683 | denying a key takes exactly the entry of these ids off the policy, and succeeds only when there was one |
| `PolicyEdits.AllowKeyLists` | src/operator.rs:626-657 | allowing a key lists its entry and drops only the one under the ids as given; otherwise chain and policy stay |
| `PolicyEdits.SetModeLists` | src/operator.rs:592-625 | after a mode change the policy has that mode and lists, for the operator and every given id, the last key given, and what was listed under other ids |
| `OperatorRecords.CommittingStores` | src/operator.rs:505-534 | a change that goes through stores one governance thought at the next position, naming the hash of the last thought, signed by the operator over its content, with the next number and the keys asked for |
| `OperatorRecords.CommittingRegisters` | src/operator.rs:469-503 | a change leaves the operator's key id registered, with its own key if it was free, and no other key or agent changed |
| `OperatorRecords.RunKeepsLinked` | src/operator.rs:584-727 | runs of commands only append, and every thought keeps naming its position and the hash of the one before |
| `OperatorSafety.ApplyKeepsControl` | src/operator.rs:584-727 | one command keeps the operator's entry, unless it names the operator's agent and key id with another key and the registry does not stop it |
| `OperatorSafety.ApplyKeepsSealed` | src/operator.rs:536-544 | once the registry holds the operator's key id for its own or a revoked key, no command undoes that |
| `OperatorSafety.NeverLockedOut` | src/operator.rs:584-727 | through every run of commands an operator in control of a chain with such a registry stays in control |
| `OperatorSafety.NeverLockedOutUnlessNamed` | src/operator.rs:584-727 | whatever the registry, runs that never name the operator with another key leave it in control |
| `OperatorShutOut.CommitShutOut` | src/access.rs:738-780 | when the policy's entry under the operator's ids does not verify what the operator signs, or there is none, every record it builds is refused and chain and policy stay |
| `OperatorShutOut.RunShutOut` | src/operator.rs:584-727 | such an operator's commands, however many, never change the policy |
| `OperatorLimits.UnsealedCanBeLockedOut` | src/operator.rs:626-657 | where the registry takes another usable key under the operator's name, allowing that key succeeds and ends control; for good, with a policy no run changes, when the operator's signatures do not verify under it |
| `OperatorLimits.AllowKeyEndsControlIff` | src/operator.rs:626-657 | allowing a key ends control exactly when it is another usable key under exactly the operator's ids and the registry has nothing under them, or that very key unrevoked |
| `OperatorLimits.SetModeEndsControlIff` | src/operator.rs:592-625 | a mode change ends control exactly when one of its keys has the operator's ids in any spelling with another key, all of its keys register, and the list it asks for makes a record |
| `OperatorLimits.EndsControlIff` | src/operator.rs:584-727 | for every command, whether it ends the operator's control, told from the command, the policy and the registry |
| `OperatorLimits.NeverLockedOutIff` | src/operator.rs:19-23 | an operator in control keeps it through every run, and some further run gives it control after every run, exactly when the registry holds its key id for its own key or a revoked one; otherwise some run leaves a policy that no run changes |
| `OperatorLimits.LockedOutRun` | src/operator.rs:584-727 | from a new chain: register another key under the operator's ids, close the chain, allow that key; the operator is in control after the second command, and shut out for good after the third when its signatures do not verify under that key |
| `OperatorLimits.OperatorCanBeLockedOut` | src/operator.rs:19-23 | such a run with every value given, two keys whose signatures verify under themselves alone; after it no run of commands changes the policy or puts the operator in control, so it cannot take the chain back |
| `OperatorSafety.SetModeTakesControl` | src/operator.rs:592-625 | every mode change that commits puts the operator's entry into the policy |
| `OperatorSafety.RecordIsAccepted` | src/access.rs:738-780 | while the operator is in control, or when it starts governance, every record that can be built passes the check |
| `OperatorSafety.CommitSucceedsIff` | src/operator.rs:505-534 | a policy change succeeds exactly when its key list can make a record and keeps a governor |
| `OperatorSafety.RunKeepsSynced` | src/lib.rs:9032-9066 | after every run the live policy equals a fresh replay of the stored chain |
| `OperatorLimits.RepeatedSetMode` | src/operator.rs:592-625 | setting the present mode again is a no-op exactly when the operator's entry is last in leaf order; otherwise it succeeds and adds one record with the same keys |
| `ChainNames.FileTellsKey` | src/lib.rs:14117-14179 | the key recovered from a chain's file name is the key as file names hold it |
| `ChainNames.KeyOfFileIff` | src/lib.rs:14159-14179 | exactly the names of a key, a dash, 16 hexadecimal digits and one of the two extensions tell that key |
| `ChainNames.FileNameIsPlain` | src/lib.rs:14117-14140 | a file name holds letters, digits, dashes, underscores and the dot of its extension, and of the key every other character as an underscore |
| `ChainNames.DecimalTellsValue` | src/backup.rs:1351 | different counters print differently |
| `ChainNames.CandidatesDiffer` | src/backup.rs:1339-1353 | different candidates are different keys with different file names |
| `ChainNames.TakenBound` | src/backup.rs:1341-1350 | candidates tried without success number at most the keys in use and files on disk |
| `ChainNames.NextImportKey` | src/backup.rs:1325-1355 | the loop ends and returns the first of `<base>-imported`, `<base>-imported-2`, and so on, that is neither in use nor on disk |
| `Restore.ClassifyIs` | src/backup.rs:1101-1124 | for well-linked chains each relationship means exactly equality, one strict prefix, the other, or neither |
| `Restore.Directory.AppendVerifiedSuffix` | src/backup.rs:1126-1141 | the loop leaves the chain with exactly the suffix at its end, and other files alone |
| `Restore.Directory.CopyChainBundle` | src/backup.rs:1143-1305 | the staged file ends up under the key's file name unless a file there may not be overwritten, and what is there is registered when it opens |
| `Restore.Directory.ImportChainFromStaging` | src/backup.rs:1001-1087 | an import does to files and registrations what the specification says, branch by branch |
| `Restore.ImportLosesNothing` | src/backup.rs:1001-1087 | other files stay; the local chain is the front of what its key then holds, unless overwriting with an unreadable backup was asked for; a readable backup is whole in that chain or under a key that was free |
| `Restore.ImportRegisters` | src/backup.rs:1001-1087 | an import fails only for an unreadable backup with nothing of its name to leave in place; it unregisters nothing, registers a readable backup under the key it is kept at and the local chain when that opens, and an unreadable one replaces what is there only on request |
| `Restore.ExtendedIsBackup` | src/backup.rs:1047-1081 | the extend case leaves exactly the backup, and classifying again gives Identical |
| `Restore.SecondImport` | src/backup.rs:1042-1087 | a second import of the same backup changes no file exactly when the backup is not kept apart from a local chain (divergent, refused or unreadable); then each import adds one more copy |
| `TokenStore.BearerTokenStore.OverlayLastUsed` | src/auth.rs:452-461 | each record shows the later of its stored and its buffered last-use time |
| `TokenStore.BearerTokenStore.SaveRecords` | src/auth.rs:767-785 | what is written takes the buffered times along and empties the buffer |
| `TokenStore.BearerTokenStore.NoteUse` | src/auth.rs:720-731 | a use is buffered, and written when the interval has passed |
| `TokenStore.BearerTokenStore.Authorize` | src/auth.rs:692-717 | the first active record for the token decides; only a granted request counts as a use |
| `TokenGrants.GrantedIff` | src/auth.rs:640-717 | a request is granted exactly when some active record with the token's hash, no earlier one being active for it, is global or lists every chain asked for |
| `TokenGrants.ScopeToldIff` | src/auth.rs:611-690 | authenticating and looking a scope up answer with the scope of that record, and with nothing when there is none |
| `TokenGrants.UseIsShown` | src/auth.rs:692-731 | a granted use makes the time shown for that alias the later of the one shown and now, and changes nothing else; a refused request changes nothing |
| `TokenGrants.UseIsWritten` | src/auth.rs:720-731 | a granted use puts everything shown on disk when the interval has passed since the last write, and leaves the file alone otherwise |
| `TokenStore.BearerTokenStore.Create` | src/auth.rs:500-526 | refusals in order, or one more record written along with the buffered times |
| `TokenGrants.CreateIff` | src/auth.rs:500-526 | creating succeeds exactly for a new alias of letters, digits, `-`, `_`, `.` and a scope that names a chain or is global, and otherwise changes nothing |
| `TokenGrants.CreatedIsGranted` | src/auth.rs:500-526 | a created token, when no other active record answers to it, is granted exactly what its scope covers |
| `TokenStore.BearerTokenStore.Revoke` | src/auth.rs:553-565 | the first record with the alias is revoked on disk, or the right refusal |
| `TokenStore.BearerTokenStore.Delete` | src/auth.rs:594-604 | the first record with the alias is removed on disk, or the right refusal |
| `TokenGrants.EndedIs` | src/auth.rs:553-604 | revoking marks, and deleting removes, the first record with the alias and nothing else that is shown; both fail exactly when there is none |
| `TokenGrants.EndedIsRefused` | src/auth.rs:545-552 | once the only active record of a token was revoked or deleted, every later request with it is refused, in every run that creates no record for it |
| `TokenStore.BearerTokenStore.List` | src/auth.rs:536-540 | the listed records are those on file with the buffered times laid over |
| `TokenStore.UseShowsIff` | src/auth.rs:720-731 | buffering a use shows as writing it at once exactly when it does not replace a later buffered time that the file does not have |
| `TokenStore.StepMatches` | src/auth.rs:436-785 | one command answers as a registry that writes every use at once, a record just revoked or deleted showing the last-use time on file, and both hold the same afterwards |
| `TokenStore.BufferingDoesNotShow` | src/auth.rs:436-785 | for every run with a clock that is not set back and every persist interval, each reply is that of writing at once, but for the last-use time of a revoked or deleted record, which is the one on file; the registries hold the same |
| `TokenStore.OpenedStoreDoesNotShow` | src/auth.rs:405-416 | the same from a store just opened on any registry file |
| `TokenStore.UseMatches` | src/auth.rs:720-731 | after a noted use, written or buffered, readers are shown what writing it at once would show |
| `TokenStore.FlushPersists` | src/auth.rs:436-449 | a flush puts on disk exactly what readers are shown |
| `TokenStore.ClockSetBackShows` | src/auth.rs:452-461 | with the clock set back between two uses the buffered registry lists an earlier time |
| `PromptText.DefangMarkers` | src/prompt_text.rs:79-100 | the loop with its run length and previous character computes the specified text |
| `PromptText.InlineText` | src/prompt_text.rs:123-142 | the loop over breaks, tabs, control and hidden characters computes the specified line |
| `PromptText.DefangedHasNoMarkers` | src/prompt_text.rs:79-100 | no `===` and no `[#` is left, whatever was written before |
| `PromptText.DefangAddsSpaces` | src/prompt_text.rs:79-100 | breaking up markers only adds spaces |
| `PromptText.InlineIsClean` | src/prompt_text.rs:123-142 | the line has no break, control or hidden character and no marker; exactly the clean texts are left unchanged; rendering twice is rendering once |
| `PromptText.InlineDropsNothing` | src/prompt_text.rs:123-142 | up to spaces the text is rendered character by character: a line break as U+23CE, a paired one once, a tab as a space, other control and hidden or reordering characters as U+FFFD, and the rest as they are |
| `PromptText.LabelIsClean` | src/prompt_text.rs:158-166 | a label is the line, or its first 80 characters and an ellipsis; it is clean and stable; exactly the short clean texts, and 81-character ones ending in the ellipsis, are left unchanged |
| `ReadAuth.Utf8ReadsBack` | pymentisdb/read_auth.py:47-49 | encoded text decodes to itself |
| `ReadAuth.Signed64ReadsBack` | pymentisdb/read_auth.py:71 | a 64-bit timestamp in two's complement reads back, negative ones included |
| `ReadAuth.TextReadsBack` | pymentisdb/read_auth.py:47-49 | a length-prefixed string reads back with whatever follows it |
| `ReadAuth.PayloadReadsBack` | pymentisdb/read_auth.py:52-73 | a payload decodes to upper-cased method, target, body digest, agent, key id, key, timestamp and nonce |
| `ReadAuth.PayloadIsTagged` | pymentisdb/read_auth.py:52-60 | a payload starts with the protocol's name and a zero byte |
| `ReadAuth.PayloadsDistinct` | pymentisdb/read_auth.py:52-73 | with keys of one length two requests sign the same bytes exactly when they say the same |
| `ReadAuth.KeyLengthMatters` | pymentisdb/read_auth.py:70-72 | with keys of different lengths two different requests can sign the same bytes |

## Left out

- `PrefixIndex.FilteredSlots`: assumes fewer than 2^32 sets, as a survivor's slot is stored in 32 bits; `CollapseHits.CollapseDuplicateHits` assumes the same of hits and distinct tokens.
- `LiveSuccessor.SuccessorIsNewest`: states completeness for graphs below the budget; above it `LineageBudget.DepthLimitMissesNewest` shows failing chains of every size, but whether one given larger graph is covered depends on the order of its links.
- `OperatorLimits.AllowKeyEndsControlIff`: assumes of the key brought in that its hexadecimal form reads back and that its leaf digest is on no policy entry, since both functions are uninterpreted; `OperatorLimits.SetModeEndsControlIff` assumes the first. `OperatorLimits.NeverLockedOutIff` asks for one such key, and `OperatorLimits.OperatorCanBeLockedOut` shows a state that has one.
- `TokenStore.BufferingDoesNotShow`: covers one process running one command at a time; `list` takes no lock in the code, and the cache keyed by file modification time is not part of this model.
- `Restore.Directory.ImportChainFromStaging`: models chain files as record lists; sidecar files, symlink checks, rehashing of legacy files, storage-kind lookup and I/O errors are not part of this model.
- `Operator.GovernedChain`: holds the policy as a value instead of the `AccessPolicy` object; the operator's record is the one thought a command appends, and writing the agent registry's display data on append is not modelled.
- 32-bit and 64-bit floating point: thresholds, similarities and scores are exact reals, so the slack in `min_overlap` is kept but not needed.
- Clocks: one instant per read for `now`; the code reads the clock for every link it tests.
- Tokenizing and stemming: hits and thoughts come with their token lists.
- Ed25519, SHA-256, Merkle roots, JSON and binary encodings: parameters, with the assumptions named where they are used.
- `query_ranked` as a whole: ranking itself is not modelled, and widening, collapsing and truncating around the redirection would only chain the results above.
- `redirected_bundle_seeds`: does not skip placed hits and so differs from `redirect_hits`; not modelled.
- Version details attached to hits, append advice, cross-chain successors: they report what the modelled functions compute.
- `restore_full_instance`, ZIP reading, manifest checks: file copying.
- Token scope parsing and printing, `X-Mentis-Auth` header encoding: easy members.
- `SegmentMap.without_quarantine`, `for_audience`, `contains`: projections of one field.
