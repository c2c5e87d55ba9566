# Verification of the consensus node and the state components around it

A Dafny model of the repository's Raft node (`modules/consensus`), with proofs about its runs, crashes, elections,
compactions and clusters, and of five components that carry a deep property of their own: Merkle roots, the XOR routing
table, the transactional router's hash chain, the key-value application with record and replay, and lease locks.
`dafny verify dfyconfig.toml` checks everything.

## How it is laid out

| file | what it holds |
|---|---|
| `Bytes.dfy`, `HexText.dfy`, `KeyOrder.dfy` | byte strings and digests, hexadecimal text, byte-wise key order and sorting |
| `RaftNode.dfy` | the node's state as a value; one function per handler; events, replies and runs |
| `RaftEngine.dfy` | the node as the mutable object it is, each method proved to compute the handler function |
| `RaftInvariant.dfy` | log indexing, commit index, what storage holds, restarts, redelivery |
| `RaftCompaction.dfy` | a compacting node against its twin that never compacts |
| `RaftDelivery.dfy` | what is offered to the commit channel, what the channel loses, and what its reader gets |
| `RaftRestart.dfy` | the two twins of a compaction across crashes |
| `RaftVoting.dfy` | votes per term over runs with crashes, and who gets one |
| `RaftElection.dfy` | tally goroutines under every interleaving, promotion, who serves reads, membership changes and majorities |
| `RaftCluster.dfy` | a cluster over an unreliable network, Log Matching, and how it fails |
| `Merkle.dfy`, `MerkleState.dfy` | level-by-level roots, the perfect tree they stand for, what a root says of its list and its batch |
| `Kademlia.dfy` | exclusive or as a metric on 256-bit numbers, the bucket table, scores |
| `ExecutionRouter.dfy` | the hash chain over committed transactions |
| `KVStore.dfy`, `Replay.dfy` | the canonical state root, recording and replaying, with failing commands and refused writes |
| `DistLock.dfy` | leases over time, and the roots of the lock table |

The objects whose methods update fields (the Raft engine, the router, the stores, the lock table, the routing table) are
classes. A method's contract ties its new state and its answer to a specification function of the old state, and the
lemmas are about those functions, over all inputs and all runs.

SHA-256 is a parameter of type `Bytes -> Digest`; nothing assumes it injective. Binding results exhibit two different
inputs, each hashed in one of the two computations, with one digest. JSON decoders are parameters too, and a storage
write of the Raft node stores the value that a later read decodes to. A handler behind the router, and a storage that
may refuse a write, enter as the answer they give. A map is ranged over in an arbitrary order.

## What came out false, and when it holds

* **One vote per term.** A candidate that hears an AppendEntries of its own term forgets that it voted for itself and
  may vote again in that term. `RaftVoting.SecondVoteIff` says that exactly such a message opens a second vote;
  `RaftVoting.OneVoteCountingOwn` that runs without one vote once per term; `RaftVoting.OneVoteForOthers` that the votes
  for others are one per term in every run.
* **The log covers the commit index.** An accepted message that stops short of what is committed breaks this, and so
  does one that carries an entry numbered past its position and commits up there (`RaftInvariant.MisnumberedPanics`).
  `RaftInvariant.AppendKeepsInvariantIff` gives the exact condition for the invariant, `RaftInvariant.CompactPanicsIff`
  the one for a later compaction to run off the log.
* **At most one leader per term.** Any two peers of one list reach the leader role of term 1 without receiving a message
  (`RaftElection.TwoLeadersOneTerm`). Exactly the nodes whose list can carry them past the threshold can become leader
  at all, and each of those can without a message (`RaftElection.CanLeadIff`).
* **A promoted node has a majority.** The tally starts with a vote for the node itself, which is no peer's if the node is
  not in its own list. Then it is promoted on half of the list, unless the list has just one member:
  `RaftElection.PromotionHasMajorityIff` is exact, `RaftElection.OutsiderLeads` shows that this can happen to every node
  started outside a list of two or more, and `RaftElection.RemovedLeaderLeads` that any node of a list of three or more
  gets there by leading, taking itself off the list and stepping down.
* **Majorities meet across membership changes.** Across one they do (`RaftElection.QuorumsOverlap`), across two they need
  not (`RaftElection.TwoChangesSplit`); `RaftElection.QuorumsOverlapIff` is exact for any two lists.
* **Log Matching.** It fails in a run of two fresh nodes: a leader's heartbeat, sent before a proposal and delivered back
  to the leader after the entry is replicated, takes the entry out of the leader's log, and another proposal gets its
  index and term (`RaftCluster.OwnHeartbeatBreaksMatching`). Besides one acting leader per term the theorem needs just
  that no leader takes a message of its own that cuts out of its log an entry of its term which another node or a message
  in flight has (`Harmless`, `RaftCluster.HarmlessCutIff`). Where a node has such an entry, or a message with it that a
  node would accept, the leader's next proposals break the property (`RaftCluster.HarmBreaksMatching`,
  `RaftCluster.HarmInFlightBreaksMatching`).
* **Compaction is invisible.** Messages that reach back behind the snapshot (`RaftCompaction.BehindSnapshotIff`) or
  carry misnumbered entries (`RaftCompaction.MisnumberedIff`) can tell. So can a crash, in two ways. The node offers less
  to its reader afterwards than its twin, by exactly the payload of what the snapshot had swallowed
  (`RaftRestart.RestartedOffers`). And a compaction writes the term and vote that a mismatch return left unwritten, so
  the twin comes back with others (`RaftRestart.CompactionKeepsDisksIff`). Everything else survives a crash unseen
  (`RaftRestart.RunLooksAlikeAcross`).
* **What is committed is offered once.** A following node meets this exactly as long as the messages it accepts carry
  the payload they replace up to the applied index (`RaftDelivery.AppendOfferedIff`). A leader's proposal meets it exactly
  if it is not empty and all the entries it jumps over are (`RaftDelivery.ProposalOfferedIff`).
* **A Merkle root fixes its list.** Not its length: an odd list and the same list with its last leaf repeated share
  their root (`Merkle.OddListRepeated`). Nor its height: an inner node can stand as a leaf (`Merkle.InnerNodeAsLeaf`),
  and one key made of two digests has the root of a batch of two (`MerkleState.BatchOfInnerNode`). Nor that it is not
  empty: the empty batch has the root of one that puts nothing under the key "empty_state" (`MerkleState.EmptyBatch`).
  The exact condition for any two lists is `Merkle.RootBindsIff`, for any two batches `MerkleState.BatchRootBindsIff`.
* **A root the key-value application recalculates fixes the contents.** Keys and values are hashed without a separator,
  so the boundary between them can move (`KVStore.KeyBoundaryNotBound`); equal roots mean equal bytes written,
  collisions apart (`KVStore.RootBindsContents`).
* **The contents fix the root it keeps.** A key put and deleted again leaves a fresh store with another root
  (`KVStore.EmptiedAgain`), and a refused write leaves the root as it was. Collisions apart, it is the root of the
  contents exactly when some command succeeded and the bytes written are those of the last success
  (`KVStore.RootCurrentIff`); if no write was refused, exactly when some command succeeded
  (`KVStore.RootCurrentUnrefusedIff`).
* **A lock table has one root.** Locks are hashed in an arbitrary order, so two of them can give two roots
  (`DistLock.TwoRoots`). A table of any size has one root, collisions apart, if and only if any two of its locks add the
  same bytes in either order (`DistLock.OneRootIff`).
* **A recorded run replays.** Not after a write that storage refused, because memory keeps the refused change. The exact
  condition for any run is `Replay.KeptReplaysIff`; for the first refused write of a run and the success after it, it is
  `Replay.RefusedWriteIff`.
* **Replies carry the current term.** They carry the one from before the request (`RaftInvariant.ReplyTermStaleIff`).
* **A single-node cluster elects itself.** It never does (`RaftElection.SoleNodeNeverLeads`).

## Model

| member | source | states |
|---|---|---|
| RaftEngine.RaftEngine.constructor | modules/consensus/raft_engine.go:93-111 | a new node is follower with nothing committed, and has the state its storage holds, or the fresh one |
| RaftEngine.RaftEngine.PersistState | modules/consensus/raft_engine.go:409-423 | exactly term, vote, log and snapshot reach storage; without storage nothing happens |
| RaftEngine.RaftEngine.LoadState | modules/consensus/raft_engine.go:425-445 | term, vote, log and snapshot become the stored ones, if any are stored; nothing else changes |
| RaftEngine.RaftEngine.StartElection | modules/consensus/raft_engine.go:211-222 | the locked part of an election start, in place, with the three values the vote requests are made of |
| RaftEngine.RaftEngine.FinishTally | modules/consensus/raft_engine.go:242-246 | what a tally past its threshold does under the node's lock: a candidate of its term becomes leader, anyone else is left alone |
| RaftEngine.RaftEngine.HandlePropose | modules/consensus/raft_engine.go:261-287 | a proposal, in place: leader only, appended, stored, committed and offered at once |
| RaftEngine.RaftEngine.Compact | modules/consensus/raft_engine.go:293-314 | a compaction, in place, with its refusals and the out-of-range case |
| RaftEngine.RaftEngine.HandleRequestVote | modules/consensus/raft_engine.go:330-355 | a vote request, in place, with its reply |
| RaftEngine.RaftEngine.HandleAppendEntries | modules/consensus/raft_engine.go:357-407 | an AppendEntries, in place, with its reply |
| RaftEngine.RaftEngine.CommitUpTo | modules/consensus/raft_engine.go:384-403 | the commit block and its apply loop take the node to the recursive specification of delivery |
| RaftEngine.RaftEngine.ProposeMembershipChange | modules/consensus/raft_membership.go:25-59 | the two peer loops compute duplicate detection and the filtered list |
| RaftInvariant.AppendFrame | modules/consensus/raft_engine.go:380-406 | an accepted message splices the log, persists, and clamps the commit index to the log end; the channel is the only other thing it touches |
| RaftInvariant.CommitIsGreatest | modules/consensus/raft_engine.go:384-389 | the commit index moves only for a later one of the leader's, to that or the log end, whichever comes first |
| RaftInvariant.AppendKeepsInvariantIff | modules/consensus/raft_engine.go:357-407 | a message keeps log indexing and commit coverage if and only if it is rejected, or consecutive and reaching the commit index |
| RaftInvariant.CompactPanicsIff | modules/consensus/raft_engine.go:297-303 | after any accepted message some compaction indexes out of the log if and only if the clamped commit index lies past the last entry carried |
| RaftInvariant.MisnumberedPanics | modules/consensus/raft_engine.go:384-389 | a message that reaches the commit index does it too, with one entry numbered past its position and committed |
| RaftInvariant.RunKeepsInvariant | modules/consensus/raft_engine.go:261-445 | over any run with crashes whose accepted messages meet that condition: the invariant holds, no compaction panics, and without a crash term, commit index and snapshot index never decrease |
| RaftInvariant.FreshLifetime | modules/consensus/raft_engine.go:93-111 | the same for the whole life of a node set up on storage never written to, or on none |
| RaftInvariant.CompactedIff | modules/consensus/raft_engine.go:293-314 | under the invariant a compaction is done if and only if its index is past the snapshot and committed; it takes the state given and the term of the entry there, and keeps all entries behind it |
| RaftInvariant.SnapshotIsLastCompaction | modules/consensus/raft_engine.go:305-312 | over any run with crashes the snapshot's index and state are those of the last compaction answered as done, or those of the start |
| RaftInvariant.SnapshotSurvives | modules/consensus/raft_engine.go:409-445 | from a start on any storage, and a further crash brings them back |
| RaftInvariant.ReadIndexCoversProposals | modules/consensus/raft_membership.go:61-74 | a leader accepts a proposal; the read index right after it is the proposal's, and every later one in the process covers it and lies within the log |
| RaftInvariant.ReadIndexGrows | modules/consensus/raft_membership.go:61-74 | between two reads of one process neither index nor term falls, whatever happens between |
| RaftInvariant.SyncedStep | modules/consensus/raft_engine.go:409-445 | after every step the stored log and snapshot are the ones in memory, and the stored term is not ahead |
| RaftInvariant.CurrentIff | modules/consensus/raft_engine.go:367-378 | memory and storage part in exactly one branch: a mismatching message that changed term or vote |
| RaftInvariant.StoredBeforeReply | modules/consensus/raft_engine.go:348-354 | no granted vote, acknowledged append, accepted proposal, compaction or membership change leaves the node before its state is stored, nor any answer to a vote request that is not stale |
| RaftInvariant.RestartRoundTrip | modules/consensus/raft_engine.go:409-445 | a crash at the end of any run brings back log and snapshot, and term and vote too if they were stored; restarting twice is restarting once |
| RaftInvariant.AppendIdempotent | modules/consensus/raft_engine.go:357-407 | in every state, well formed or not, delivering a message twice in a row is delivering it once, and the verdict repeats |
| RaftCompaction.AppendRefines | modules/consensus/raft_engine.go:357-407 | a message that is stale, or starts at or after the snapshot and is numbered consecutively if it matches, is answered alike by the compacting node and its twin, and keeps them related |
| RaftCompaction.CompactTail | modules/consensus/raft_engine.go:302-311 | after a compaction the stored log is still the tail of the full log, headed by the entry it was cut at |
| RaftCompaction.RunRefines | modules/consensus/raft_engine.go:293-402 | a run without a crash and the same run without its compactions give the same replies and end in related states |
| RaftCompaction.RunLooksAlike | modules/consensus/raft_engine.go:293-402 | so after a run without a crash commit and applied indices, channel, term, vote, role, log ends and remaining entries agree |
| RaftCompaction.CompactTwice | modules/consensus/raft_engine.go:302-312 | compacting at a and then at b leaves what compacting at b leaves, on disk too |
| RaftCompaction.BehindSnapshotIff | modules/consensus/raft_engine.go:375-378 | for a message behind the snapshot the answers differ exactly when it is fresh and the full log still matches it |
| RaftCompaction.MisnumberedIff | modules/consensus/raft_engine.go:305-311 | compacting at the last position keeps the last log index exactly when the entry there carries its position |
| RaftRestart.RunLooksAlikeAcross | modules/consensus/raft_engine.go:93-445 | over runs with crashes at any point, the run and the same run without its compactions give the same replies and agree on term, vote, role, peers, commit and applied index, log ends and remaining entries, if no compaction is the first to store a term or a vote |
| RaftRestart.CompactionKeepsDisksIff | modules/consensus/raft_engine.go:305-312 | a compaction leaves storage alike, up to the cut, if and only if term and vote were already stored |
| RaftRestart.RestartedOffers | modules/consensus/raft_engine.go:384-445 | after a crash the twin offers first the committed payload of exactly the entries the snapshot had swallowed, then all that the compacting node offers |
| RaftDelivery.DeliversCommittedOnce | modules/consensus/raft_engine.go:384-402 | a following node has offered exactly the non-empty data of indices s+1 to commitIndex in order, s being the snapshot index it started with, whatever it compacted meanwhile |
| RaftDelivery.ApplyOffers | modules/consensus/raft_engine.go:390-402 | the apply loop offers the non-empty data between the applied and the commit index, in order, whatever was offered before |
| RaftDelivery.AppendOfferedIff | modules/consensus/raft_engine.go:380-402 | an accepted message that reaches the commit index keeps what was offered equal to the payload up to the applied index if and only if it carries the payload it replaces up to there |
| RaftDelivery.ProposalOfferedIff | modules/consensus/raft_engine.go:261-287 | a leader's proposal keeps it if and only if its data is not empty and the data of every entry it jumps over is |
| RaftDelivery.ReaderGetsOffered | modules/consensus/raft_engine.go:395-399 | in any run the channel's reader gets the offered values in order, each at most once, and all of them exactly when none was dropped |
| RaftDelivery.StepHandsOn | modules/consensus/raft_engine.go:390-402 | a step queues the values it offers, in order, behind those that wait, and loses only those that find 1000 waiting |
| RaftDelivery.NothingDroppedIff | modules/consensus/raft_engine.go:395-399 | over any run with crashes nothing is ever lost if and only if the reader is never more than 1000 values behind; received and queued are then exactly what was offered |
| RaftDelivery.ReceivesInOrder | modules/consensus/raft_engine.go:395-399 | receiving k times gets the k values that have waited longest, and leaves the rest |
| RaftDelivery.ReaderCatchesUp | modules/consensus/raft_engine.go:395-399 | a reader never more than 1000 behind that empties the channel has received exactly what was offered |
| RaftVoting.OneVoteForOthers | modules/consensus/raft_engine.go:330-355 | over any run with crashes a node votes for at most one candidate other than itself in a term |
| RaftVoting.OneVoteCountingOwn | modules/consensus/raft_engine.go:211-217 | its own votes included, one vote per term in every run where no candidate hears from its own term |
| RaftVoting.SecondVoteIff | modules/consensus/raft_engine.go:367-371 | after a message, a candidate can be brought to vote for someone else in its term if and only if the message was of that term |
| RaftVoting.VoteGrantedIff | modules/consensus/raft_engine.go:330-355 | a vote is granted if and only if the term is not stale, no vote of that term for someone else bars it, and no entry held has a later index than the candidate's last |
| RaftVoting.VoteRequestFrame | modules/consensus/raft_engine.go:333-354 | which term, role and vote a request leaves behind, that the reply has the earlier term, and that only storage changes besides |
| RaftVoting.VoteCoversCommitted | modules/consensus/raft_engine.go:346-351 | after any run that keeps the invariant a granted candidate's last index covers all that is committed, and a later term with no shorter log always gets the vote |
| RaftVoting.VoteDeniedIff | modules/consensus/raft_engine.go:330-355 | after any run on fresh storage a request neither stale nor behind is denied only because of a ballot of its term for someone else in the run, and always then, unless the node forgot its own vote |
| RaftElection.RoleMachine | modules/consensus/raft_engine.go:211-251 | over any stretch of any interleaving within one term, a role that changed was Candidate: leaders stay, and who stepped down is not promoted |
| RaftElection.ActMovesRole | modules/consensus/raft_engine.go:340-371 | terms never fall, and a handler makes nobody a leader and changes no role but to follower within a term |
| RaftElection.PromotionHasMajorityIff | modules/consensus/raft_engine.go:224-249 | promotion happens only in the tally's own term, to a candidate; the distinct peers counted are a majority of its list at that moment if and only if it is in that list, or the list has one member |
| RaftElection.PromotionSinceStart | modules/consensus/raft_engine.go:93-249 | the same in any run of a process started on any storage with distinct peers |
| RaftElection.LeadsUnprompted | modules/consensus/raft_engine.go:211-251 | a process can reach the leader role of its next term without receiving a message whenever counting everybody else in its list passes the threshold |
| RaftElection.CanLeadIff | modules/consensus/raft_engine.go:211-251 | a process just started can become leader, in whatever run, if and only if that count passes, and then without a message; with distinct peers, if and only if its list names someone else |
| RaftElection.TwoLeadersOneTerm | modules/consensus/raft_engine.go:211-251 | so any two fresh nodes of one peer list can both lead term 1 |
| RaftElection.OutsiderLeads | modules/consensus/raft_engine.go:224-249 | a node started outside a list of two or more distinct peers has a run that promotes it without a majority of them |
| RaftElection.RemovedLeaderLeads | modules/consensus/raft_membership.go:40-55 | so has every node of a list of three or more, once it has led and taken itself off the list |
| RaftElection.SoleNodeNeverLeads | modules/consensus/raft_engine.go:227-249 | a node that is its own only peer never becomes leader, in any run |
| RaftElection.ServesIff | modules/consensus/raft_membership.go:61-74 | in any run of a process it gives a read index, of its commit index and term, and accepts proposals and changes, if and only if a promotion of the run made it leader of its current term |
| RaftElection.NeverServes | modules/consensus/raft_membership.go:65-67 | started with a list that cannot carry it, it never gives a read index and never accepts a proposal |
| RaftElection.LaterTermEndsService | modules/consensus/raft_engine.go:340-371 | after a request of a later term it gives none until it is promoted again |
| RaftElection.ChangeKeepsDistinct | modules/consensus/raft_membership.go:33-55 | the peer list stays free of duplicates |
| RaftElection.ChangeMembers | modules/consensus/raft_membership.go:29-58 | which changes are accepted, that exactly one member joins, at the end, or leaves, and that nothing else but storage changes |
| RaftElection.WithoutAppend | modules/consensus/raft_membership.go:40-50 | removal takes out every occurrence of one peer and keeps the others as often and in the order they were |
| RaftElection.QuorumsOverlap | modules/consensus/raft_membership.go:33-55 | a majority before a membership change and one after it share a member |
| RaftElection.QuorumsOverlapIff | modules/consensus/raft_engine.go:241 | for any two lists, all majorities of one meet all of the other if and only if together they must borrow more of the shared members than there are |
| RaftElection.TwoChangesSplit | modules/consensus/raft_membership.go:33-55 | across two changes they need not |
| RaftCluster.DeliverSplices | modules/consensus/raft_engine.go:375-381 | an accepted message makes the receiver's full log equal to the sender's at sending time, up to the last entry carried |
| RaftCluster.LogMatching | modules/consensus/raft_engine.go:261-381 | in a cluster of fresh nodes, after every run with one acting leader per term in which no leader takes from itself a message that costs it an entry of its term which another node or a message in flight has, two full logs with one term at one index agree up to it |
| RaftCluster.StoredLogMatching | modules/consensus/raft_engine.go:261-445 | the same after the same runs over the entries nodes actually store, through compactions and restarts |
| RaftCluster.OwnMessageIff | modules/consensus/raft_engine.go:367-381 | a leader accepting a consecutive message of its own term reuses an index in that term exactly when the message ends before its log |
| RaftCluster.HarmBreaksMatching | modules/consensus/raft_engine.go:261-381 | from any state the invariant allows, when a leader takes a message of its own that ends before an entry of the term which another node has, proposals of the leader up to there break the property |
| RaftCluster.HarmInFlightBreaksMatching | modules/consensus/raft_engine.go:261-381 | the same of an entry only in a message that some other node would accept |
| RaftCluster.HarmlessCutIff | modules/consensus/raft_engine.go:367-381 | a leader's own message that cuts its log is harmful if and only if another node or a message in flight has an entry of the term behind the cut |
| RaftCluster.OwnHeartbeatBreaksMatching | modules/consensus/raft_engine.go:253-381 | a run of two fresh nodes, without that condition, after which one term at one index has two entries |
| Merkle.ComputeMerkleRoot | applications/sovereign-chain/merkle_state.go:48-70 | the level loop and the recursion compute the root, and terminate |
| Merkle.HeightIsLog | applications/sovereign-chain/merkle_state.go:57-69 | the number of levels is the binary logarithm of the number of leaves, rounded up |
| Merkle.RootIsPerfectTree | applications/sovereign-chain/merkle_state.go:53-69 | the root is the top-down root of a perfect tree of that height over the leaves padded by repeating the last subtree |
| Merkle.PadKeepsRoot | applications/sovereign-chain/merkle_state.go:63-66 | padding changes neither the root nor the set of inputs hashed |
| Merkle.RootBinds | applications/sovereign-chain/merkle_state.go:48-70 | equal roots of lists of one length mean equal lists, or two hashed inputs collide |
| Merkle.RootBindsIff | applications/sovereign-chain/merkle_state.go:48-70 | for any two lists, empty ones included, collisions apart, roots are equal if and only if the lists are once padded, the higher one taken at the level where it is as high as the other, or one is empty and the other the one leaf that is its root |
| Merkle.OddListRepeated | applications/sovereign-chain/merkle_state.go:63-66 | repeating the last leaf of an odd list does not change its root |
| Merkle.InnerNodeAsLeaf | applications/sovereign-chain/merkle_state.go:48-70 | one leaf that is the inner node over two has the root of the two, other padding, and nothing hashed that could collide |
| MerkleState.MerkleState.ApplyChanges | applications/sovereign-chain/merkle_state.go:26-46 | every change reaches memory and storage, and the root is that of the batch's own sorted keys, whatever the order of iteration and whatever was applied before |
| MerkleState.BatchIsPerfectTree | applications/sovereign-chain/merkle_state.go:36-70 | the root of a batch is the top-down root of the padded perfect tree over the digests of each key and its value, keys in order |
| MerkleState.BatchRootBinds | applications/sovereign-chain/merkle_state.go:26-70 | two batches of one size have, collisions apart, one root if and only if the same key-and-value bytes are hashed for their leaves |
| MerkleState.BatchRootBindsIff | applications/sovereign-chain/merkle_state.go:26-70 | two batches of any sizes have, collisions apart, one root if and only if their leaf digests are alike in the sense of `Merkle.RootBindsIff` |
| MerkleState.EmptyBatch | applications/sovereign-chain/merkle_state.go:49-52 | the empty batch has the root of the batch that puts nothing under the key "empty_state" |
| MerkleState.BatchOfInnerNode | applications/sovereign-chain/merkle_state.go:38-70 | a batch with one key made of two digests and an empty value has the root of any batch with those two leaf hashes |
| KeyOrder.SortedUnique | applications/sovereign-chain/merkle_state.go:36 | a multiset of keys has one sorted list, so any correct sort gives it |
| KeyOrder.SortedKeys | applications/kv-store/kvstate.go:70-74 | ranging over a map in any order and sorting gives the one ordered key list |
| KeyOrder.AtMostIff | applications/kv-store/kvstate.go:74 | the order is that of strings: a prefix first, and otherwise the smaller byte where the two first differ |
| Kademlia.CalculateXORDistance | modules/networking/kademlia.go:41-50 | the byte loop and the big-endian read compute the distance |
| Kademlia.XorBytesIsXor | modules/networking/kademlia.go:45-49 | the byte-wise result read big-endian is the bitwise exclusive or of the two numbers |
| Kademlia.DistanceIsMetric | modules/networking/kademlia.go:41-50 | symmetric, zero exactly for equal digests, triangle inequality, one digest per distance |
| Kademlia.BucketRange | modules/networking/kademlia.go:56-63 | bucket i holds distances from 2^i to below 2^(i+1), bucket 0 also 0; the upper clamp never acts |
| Kademlia.KademliaDHT.InsertPeer | modules/networking/kademlia.go:52-79 | insertion, in place: overwrite and keep the score, or append if there is room and set the score |
| Kademlia.KademliaDHT.AdjustPeerScore | modules/networking/kademlia.go:81-85 | one score changes by the difference, counting from 0 for an id never scored |
| Kademlia.PlacedOnce | modules/networking/kademlia.go:52-79 | over any run a stored id occurs once in the whole table, in the bucket of its distance, and no bucket exceeds 20 |
| Kademlia.AddStoresIff | modules/networking/kademlia.go:69-77 | the new record is stored if and only if the id was known or the bucket had room |
| Kademlia.AddKeepsOthers | modules/networking/kademlia.go:69-77 | records of other ids neither appear nor disappear |
| Kademlia.ScoreIsSum | modules/networking/kademlia.go:69-85 | a stored peer's score is that of its insertion plus every later adjustment, re-adding notwithstanding |
| Kademlia.ScoreOfAny | modules/networking/kademlia.go:76-85 | the score of any id, stored or not, is that of the last time it was added while unknown, room or not, or 0, plus every adjustment since |
| Kademlia.StaysStored | modules/networking/kademlia.go:66-77 | a peer once stored is never displaced |
| Kademlia.FirstComeFirstKept | modules/networking/kademlia.go:73-76 | in every bucket the peers stand in the order in which they were inserted |
| ExecutionRouter.ExecutionRouter.RunTransaction | core/execution/engine.go:55-94 | one transaction, in place: the three failure receipts, the rollback and the commit |
| ExecutionRouter.ExecutionRouter.GetReceipt | core/execution/engine.go:104-109 | the receipt kept for an id, if there is one |
| ExecutionRouter.RootIsChain | core/execution/engine.go:73-85 | after any run the root is the chain over the results of exactly the committed transactions |
| ExecutionRouter.ReceiptIsLast | core/execution/engine.go:61-92 | the receipt of an id is that of its last transaction; its status and cause say which of the four outcomes it had, and its root is the digest of the root before it followed by the result, the root of that prefix, or empty if it did not commit |
| ExecutionRouter.ReceiptKeptIff | core/execution/engine.go:104-109 | a receipt is kept for exactly the ids of the run's transactions |
| ExecutionRouter.FirstRootIsNotHex | core/execution/engine.go:44 | no digest text extended by anything equals the first root extended by anything |
| ExecutionRouter.ChainBinds | core/execution/engine.go:82-85 | equal chain values mean equal result lists of whatever lengths, or two hashed inputs collide |
| ExecutionRouter.EqualRootsEqualResults | core/execution/engine.go:73-92 | collisions apart, two routers have one root if and only if they committed the same results |
| KVStore.KVState.RunCommand | applications/kv-store/kvstate.go:41-67 | one command, in place, with the decoding, storage and unsupported-operation errors |
| KVStore.KVState.RecalculateRoot | applications/kv-store/kvstate.go:69-82 | the root is a function of the contents, whatever the order of iteration |
| KVStore.HoldsLast | applications/kv-store/kvstate.go:50-63 | after any run of commands memory holds under each key the value of its last PUT, or nothing if a later DELETE names it, whether or not storage took them |
| KVStore.ContentsExtend | applications/kv-store/kvstate.go:75-80 | what is hashed grows by a key and its value, at the end, with every key above all others |
| KVStore.RootBindsContents | applications/kv-store/kvstate.go:69-82 | collisions apart, two contents have one root if and only if the bytes written for them are the same |
| KVStore.KeyBoundaryNotBound | applications/kv-store/kvstate.go:76-80 | moving a byte from the front of a value to the end of its key gives other contents with the same root |
| HexText.HexDigits | applications/kv-store/kvstate.go:81 | a root is printed byte by byte as two lower-case digits, the high one first |
| KVStore.RootCurrentIff | applications/kv-store/kvstate.go:41-67 | after any run of commands, some failing, the root kept is the contents' own, collisions apart, if and only if some command succeeded and the bytes written for the contents are those of the last success |
| KVStore.RootCurrentUnrefusedIff | applications/kv-store/kvstate.go:41-67 | if storage refused no write, it is if and only if some command succeeded |
| KVStore.EmptiedAgain | applications/kv-store/kvstate.go:50-66 | a key put and deleted again leaves the empty contents with another root than a fresh store has |
| Replay.ReplayLog.Record | core/runtime/replay.go:30-41 | one entry is appended, numbered by its position |
| Replay.ReplayOn | core/runtime/replay.go:57-76 | the replay loop, driving a stateful machine, computes the replay outcome |
| Replay.RecordExtends | core/runtime/replay.go:34-40 | one more successful command adds to a recorded run just the entry that recording it appends |
| Replay.ReplayOutcome | core/runtime/replay.go:57-76 | for any machine and any entries a replay finishes, with the last root, if and only if every command succeeds and no root written down differs; otherwise it names the first entry at fault and which fault it was |
| Replay.ReplayUndoesRecord | core/runtime/replay.go:57-76 | replaying a recorded run on any deterministic machine ends at its last recorded root; an empty recording gives the empty root |
| Replay.ReplayFinishesIff | core/runtime/replay.go:69-72 | with roots rewritten, a replay finishes if and only if no root became a different non-empty one |
| Replay.ReplayNamesFirstAltered | core/runtime/replay.go:70-71 | otherwise it fails at the first such entry and names its sequence number |
| Replay.KVReplay | applications/kv-store/kvstate.go:65-82 | for the key-value application the replayed root is the root of the contents the run ended with |
| Replay.KeptReplaysIff | applications/kv-store/kvstate.go:41-67 | the recording of the successful commands of a run with failures replays, collisions apart, if and only if at every success the bytes written for the contents are those there would have been without the failed attempts |
| Replay.FailuresWithoutRefusalReplay | applications/kv-store/kvstate.go:41-67 | so it replays if no write was refused, whatever else failed |
| Replay.RefusedWriteIff | applications/kv-store/kvstate.go:50-66 | after any run without a refused write, a refused write and then a success leave a recording that replays, collisions apart, if and only if the bytes written for the contents with and without the refused change are the same |
| DistLock.LockState.RunCommand | applications/dist-lock/lockstate.go:47-86 | one command at a given time, in place, with every refusal; a success returns the new state root, and a refusal changes nothing |
| DistLock.LockState.RecalculateRoot | applications/dist-lock/lockstate.go:88-95 | the new root is the digest of the table written in some order of iteration |
| DistLock.TwoRoots | applications/dist-lock/lockstate.go:88-95 | a table of two locks can get either of two roots, different unless both orders write the same bytes or they collide |
| DistLock.OneRootIff | applications/dist-lock/lockstate.go:88-95 | a table of any size has one root, collisions among what may be written for it apart, if and only if any two of its locks add the same bytes in either order |
| DistLock.LockState.IsLocked | applications/dist-lock/lockstate.go:103-111 | whether the table holds an unexpired entry |
| DistLock.AcquireRefusedIff | applications/dist-lock/lockstate.go:58-66 | under a clock that never runs back an acquisition is refused if and only if a lease of another holder on the resource covers its time |
| DistLock.ReleaseSucceedsIff | applications/dist-lock/lockstate.go:68-77 | a release succeeds if and only if the last grant of the resource was to that holder and has not been released since, expired or not |
| DistLock.LeaseRunsForTtl | applications/dist-lock/lockstate.go:60-66 | a granted lease starts at once and runs a million nanoseconds for each millisecond of its time to live, if that fits into 64 bits, and is off by a multiple of 2^64 otherwise |
| DistLock.OthersFail | applications/dist-lock/lockstate.go:47-81 | a command that does not decode, or asks for something else, fails and changes nothing |
| DistLock.StepKeepsLedger | applications/dist-lock/lockstate.go:58-78 | every step keeps: running leases are exactly the unexpired table entries, and of two leases on a resource the earlier has ended when the later starts |
| DistLock.LeasesExclude | applications/dist-lock/lockstate.go:58-78 | under a clock that never runs back, no instant is covered by two leases on one resource |
| DistLock.LockedIffCovered | applications/dist-lock/lockstate.go:103-111 | a resource is reported locked at a time if and only if a granted lease covers that time |

## Left out

- Cluster-wide election safety: a tally counts every peer as a yes without asking it (modules/consensus/raft_engine.go:231-249), so it fails (`RaftElection.TwoLeadersOneTerm`), and one acting leader per term is a condition of the Log Matching runs.
- Majority commit and leader completeness: proposals commit at once (modules/consensus/raft_engine.go:278-279) and heartbeats send nothing (253-259), so section 5.4 of the Raft paper is not implemented.
- RaftDelivery.DeliversCommittedOnce: is about a node that only follows and messages that carry the payload they replace; what each excluded step does is in `RaftDelivery.ProposalOfferedIff` and `RaftDelivery.AppendOfferedIff`.
- RaftDelivery.AppendOfferedIff: is about messages that reach the commit index, because a shorter one can leave the applied index past the log (`RaftInvariant.AppendKeepsInvariantIff`).
- RaftVoting.OneVoteForOthers: assumes storage that keeps what is written and candidates with non-empty ids, because an empty vote means none.
- RaftElection.RoleMachine: covers one process lifetime, because the goroutines die with the process.
- RaftCluster.LogMatching: conditions besides the two named are that every node has storage and starts fresh.
- RaftCluster.HarmlessCutIff: is about messages that lie within the leader's log, because one sent before an earlier cut may bring back entries of older terms; such a message is allowed only if it keeps every entry of the term that others have, and no converse is given for it.
- RaftElection.LeadsUnprompted: is a possibility, not a certainty: some interleaving of the goroutines gets there.
- Durability of membership: the peer list is not among the stored fields (modules/consensus/raft_engine.go:413-418); a restart takes the configured list, as the restart event says.
- The overflow of 64-bit terms, indices, scores and sequence numbers; only the lock's duration arithmetic wraps in the model.
- Timers, random timeouts, tickers, the scheduling loop, start and stop: an election timeout is an event that may come at any time.
- JSON text itself, storage failures of the Raft node (the code ignores them), and sharing one storage key between nodes.
- `SetRole`, a hook for tests.
- `GetProof` and `VerifyProof` (applications/sovereign-chain/merkle_state.go:72-96), which only compare a leaf hash with the root.
- The text of error messages, the time stamps of replay entries, and the constant transaction id of the router's `Apply` wrapper.
- Configuration, metadata, queue, ledger, plugin, registry, authorization, event bus and vault components: map and hash-chain patterns like those above with easier claims.
- Networking, HTTP, databases, metrics, certificates, signatures, proof-of-work mining, telemetry, experiment runners and plots.
