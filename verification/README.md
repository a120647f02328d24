# Ecphory: verified models

Ecphory is a "semantic fabric": a graph of intent nodes that several replicas share, that several threads edit through
consensus rounds, that an immune layer watches, and that a bare-metal kernel keeps on a block device. This project
models the parts of it whose correctness is decided by code rather than by configuration, and proves what each of them
promises, for all inputs, all runs and all interleavings.

Code that updates an object in place is a class here, and each of its methods is proved against a function of the old
state; the functions then carry the theorems. Concurrent protocols are step systems with one step per critical section
or atomic access, and their theorems hold in every reachable state.

| part | modules |
|---|---|
| kernel snapshot: codec, crash-safe commit, the other writer of the disk, whole lives of a disk | Bytes, Utf8Law, Codec, CodecErrors, CodecBuffers, SnapshotStore, DiskLayout, KernelDisk, StorageAgent, DiskRuns |
| replicas: vector clocks, conflict resolution, receive, gossip, the fabric a replica embeds | VectorClocks, Conflicts, Replicas, CausalRuns, Gossip, KnownVersions, ReplicaGraph |
| fabric graph: edge tables, reverse index, context caches, traversal | FabricGraph, FabricRuns, FabricVersions, FabricStore, Degrees, Traversal |
| semantic edits: checkout, propose, finalize, snapshot lock | SemanticTable, ConsensusTargets, ConsensusRuns, DraftEnds, Reproposals, UnclosedRounds |
| immune layer: aggregation windows, anomaly clusters, baselines | Aggregation, AggregationRuns, AggregationReplies, CognitiveMap, Moments, Baseline, Confidence |
| subscriptions: the dispatch pool | Dispatch, DispatchRuns |
| resonance: embeddings and scores | Embedding, BagOfWords, Resonance |
| screen text | Wrap |
| shared types | Common |

## What was found

Most of what the code and its comments promise holds. Where it does not, the model keeps the code's behaviour, and
lemmas give an input that fails and the exact condition.

- **Flush results are ignored.** The commit promises that a superblock on disk names a body on disk. That holds exactly
  when no body block can still hold anything else (`SnapshotStore.DurableIffSettled`); the flush in between establishes
  it, but a failed flush is not noticed, and on a blank disk a crash can then keep the superblock and lose the body
  (`SnapshotStore.BlankDiskCost`). Old and new are never mixed in any case, over any number of commits and power losses
  (`DiskRuns.LifeOfADisk`).
- **The storage agent probes inside the snapshot.** The comment calls LBA 8 the first block past the snapshot
  superblock, but the body starts at LBA 1, so LBA 8 to 127 belong to a body of eight blocks or more. The agent writes
  back what it read without looking at whether the read succeeded, which can spoil what is restored
  (`StorageAgent.UncheckedReadCost`), at once or after a crash (`StorageAgent.UncheckedCrashCost`); a body of at most
  seven blocks is out of its reach (`StorageAgent.ShortBodyOutOfReach`).
- **Text lengths are cast to 16 bits, and the loss is silent.** A fabric comes back exactly when every text is shorter
  than 65536 bytes and every other length fits its field (`Codec.RoundTrip`). A longer text need not be noticed: the
  commit succeeds, the checksum is right, and restore returns another fabric without an error, with a last node's text cut
  to its length modulo 65536 (`Codec.LastTextIsCut`, `Codec.OverlongText`).
- **Transfers carry the sender's clock, not the node's.** A relayed stale copy can make a replica ask for a newer
  version, receive it and ignore it (`Gossip.StaleCopyShadows`); when it is taken is `Gossip.PullUpdatesIff`.
- **A branched conflict keeps one version in the fabric.** The comment says the second branch gets a new lineage; it is
  inserted under the same one and replaces the first, which survives in the conflict log only, while what is known of
  the node stays the first one's (`Replicas.BranchReplacesLocal`). When the local version stays is
  `Replicas.ConflictEffect`; two replicas that receive each other's branch merely swap versions
  (`Replicas.BranchesSwap`). In any run a replica's recorded version is the one it stores exactly when every such
  branch with another version was followed by some other write of the node (`KnownVersions.VersionsAgreeIff`). A node
  that was asked for is asked for again by the next pull exactly when the transfer was branched, or its clock was
  covered (`KnownVersions.SecondPullAsksIff`).
- **A structural merge need not converge.** The targets always agree, the means unless nobody observed anything, and the
  whole node only when content, counts and variances agreed and one context extends the other
  (`Conflicts.StructuralMergeConverges`).
- **A received version is added without its edges.** A receive fades the stored version, which removes the node's edges in
  both directions, and adds the other one with its context as a mere cache: the tables stay in agreement exactly when it
  brings none (`ReplicaGraph.ReceiveKeepsIff`, with the first receive of an empty replica as the failing input in
  `ReplicaGraph.FirstReceiveCost`). The targets a structural merge joins never reach the edge tables
  (`ReplicaGraph.MergeStaysInTheCache`), and the next edge added erases them (`ReplicaGraph.NextEdgeErasesContext`).
- **A node can be proposed twice.** `propose` files the node its caller brings under the id it comes with, over whatever
  was filed there. A step keeps the rounds in order and moves them only forward if and only if it is no such propose: one
  that is refused, or brings a node no target has, or the checkout's own draft (`ConsensusRuns.StepKeepsIff`, and for runs
  `ConsensusRuns.RunKeepsIff`). Otherwise a finalized proposal becomes a draft again (`Reproposals.FinalizedIsUndone`), a
  later snapshot of the target carries no more than an earlier one (`Reproposals.SnapshotRepeats`), or a finalize releases
  another target's lock and leaves its own (`Reproposals.WrongTargetReleased`). What is called orderly below are the
  runs without such a propose.
- **A finalize that closes a round in a High region leaks the lock.** The ConsensusSnapshot is written unsigned, so it is
  refused, and nothing releases the snapshot lock again: it stays in every continuation if and only if the default
  region is High (`ConsensusRuns.LockedForeverIffHigh`, reached in four steps in `UnclosedRounds.LeakHappens`).
- **Checkout expiry alone closes no round.** The module's header promises a snapshot when the last outstanding checkout
  finalizes or expires, but time passing triggers nothing and the sweep's result is ignored. A round is overdue when no
  checkout with time left is open, nothing is locked, and something finalized is in no snapshot. In an orderly run that
  begins exactly when time passes the end of the last outstanding checkout, and ends exactly when somebody registers a
  checkout with time left or finalizes a draft left on the target (`UnclosedRounds.OverdueIff`, with a run in
  `UnclosedRounds.OverdueHappens`); until then there is no snapshot (`UnclosedRounds.OverdueUntilRevived`). A sweep only
  makes it visible (`UnclosedRounds.StrandedIff`), and only inside a checkout call, whose own checkout follows.
- **Persisted data can carry a repeated id,** which leaves the signature index pointing at a node with another signature
  (`FabricRuns.RepeatedIdCost`); the rebuilt fabric is coherent exactly when no indexed signature is overwritten so
  (`FabricRuns.PersistedCoherent`).
- **A signature can lead nowhere although a node has it.** Looking a node up by signature is documented to return the
  first node with that content; when the first of two fades, the index entry goes with it
  (`FabricVersions.TwinIsLost`, and exactly then: `FabricVersions.FadeCompleteIff`).
- **`apply_action` can fail half-way.** Re-weighting a self-edge removes it and then reports an error
  (`FabricGraph.ModifyFailsIff`); `add_edge` refuses self-edges, but persisted data lets them in
  (`FabricRuns.SelfEdgeLoads`).
- **Edge weights are not checked by `add_edge`.** The context score is documented as normalized to [0, 1], but has no
  floor. The score is in range whatever its other components exactly when the node's connectivity is not negative
  (`Resonance.ScoreInUnitIff`); one edge can put every score of its source below zero (`Resonance.NegativeWeightCost`).
- **A region narrower than one character wraps forever** unless the text is newlines only (`Wrap.EndsIff`).

## Model

| member | source | states |
|---|---|---|
| Codec.DecodesIff | kernel-core/src/snapshot.rs:263-408 | Bytes decode to a fabric if and only if it is within the length limits and its encoding is a prefix of the bytes: both round trips, one encoding per fabric, trailing bytes ignored. |
| Codec.RoundTrip | kernel-core/src/snapshot.rs:221-224 | Encoding then decoding, with anything after it, gives the fabric back if and only if every length fits its field. |
| Codec.EncodingPrefixFree | kernel-core/src/snapshot.rs:380-392 | No fabric's encoding is another one's, or a proper prefix of another one's. |
| Codec.LastTextIsCut | kernel-core/src/snapshot.rs:221-224 | Any fabric without edges whose last node is a CPU feature comes back, without an error, with the feature's name cut to its length modulo 65536, whatever that length, if the rest fits and what is left is UTF-8. |
| Codec.OverlongText | kernel-core/src/snapshot.rs:221-224 | A text of 65536 bytes, whose length is written as 0, comes back as another fabric, with the text empty, and no error. |
| Codec.StrAt | kernel-core/src/snapshot.rs:250-255 | A string is read back at an offset exactly when it is UTF-8, short enough, and its encoding stands there. |
| Codec.KindAt | kernel-core/src/snapshot.rs:325-366 | The same for each of the twelve kinds of content, tag included. |
| Codec.KindTag | kernel-core/src/snapshot.rs:325-366 | Content read under a tag is of that tag's kind. |
| Codec.NodeAt | kernel-core/src/snapshot.rs:325-366 | A node's encoding delimits itself: it is read back, and the reader stops right behind it, whatever follows. |
| Codec.EdgeAt | kernel-core/src/snapshot.rs:368-408 | The same for edges, with a one-to-one tag for each kind. |
| Codec.NodesAt | kernel-core/src/snapshot.rs:394-408 | The decoder's node loop reads back exactly the listed nodes, from any point of the loop on. |
| Codec.EdgesAt | kernel-core/src/snapshot.rs:394-408 | The decoder's edge loop does the same. |
| CodecErrors.AnswerStays | kernel-core/src/snapshot.rs:226-261 | What decoding answers does not change with more bytes behind it, unless the answer is Truncated. |
| CodecErrors.CutShort | kernel-core/src/snapshot.rs:226-261 | Every proper prefix of a fabric's encoding is answered Truncated. |
| CodecErrors.StringAnswer | kernel-core/src/snapshot.rs:250-255 | A string is answered by its bytes, by Unparseable if they are no UTF-8, and by Truncated if they are not all there. |
| CodecErrors.UnknownTag | kernel-core/src/snapshot.rs:325-377 | A kind of twelve or more and an edge kind of four or more are answered Unparseable. |
| Utf8Law.Utf8Iff | kernel-core/src/snapshot.rs:250-255 | Bytes pass the UTF-8 check exactly when they encode some sequence of code points without surrogates. |
| CodecBuffers.Writer.PutStr | kernel-core/src/snapshot.rs:221-225 | Appends the length, cast to 16 bits, and the bytes. |
| CodecBuffers.Writer.EncodeNode | kernel-core/src/snapshot.rs:263-323 | Appends exactly the node's encoding to what was written before. |
| CodecBuffers.Writer.EncodeSnapshot | kernel-core/src/snapshot.rs:380-392 | Appends the header, every node and every edge, in order. |
| CodecBuffers.Reader.ReadStr | kernel-core/src/snapshot.rs:250-255 | Reads what the parser says at the cursor and leaves the cursor where it stopped, never out of range. |
| CodecBuffers.Reader.DecodeNode | kernel-core/src/snapshot.rs:325-366 | The same for a whole node, field by field. |
| CodecBuffers.DecodeSnapshot | kernel-core/src/snapshot.rs:394-408 | The decoding loops return what the parser says, for every byte string. |
| CodecBuffers.EncodeFabric | kernel-core/src/snapshot.rs:380-392 | The encoding loops return the encoding. |
| SnapshotStore.NeverAMix | kernel-core/src/snapshot.rs:90-188 | After any crash that keeps any of the cached writes, restore fails, or returns exactly the old fabric, or exactly the new one. |
| SnapshotStore.NeverAMixOfMany | kernel-core/src/snapshot.rs:182-187 | With block 0 naming any of several bodies, a crash restores one of them, whole, or nothing, however their blocks are mixed. |
| SnapshotStore.CrashIff | kernel-core/src/snapshot.rs:66-72 | What a crash can leave: each block independently takes its durable content or any write cached for it. |
| SnapshotStore.DurableIffSettled | kernel-core/src/snapshot.rs:121-122 | Every crash that keeps the new superblock restores the new fabric if and only if no body block can hold anything else. |
| SnapshotStore.FailedFlushCost | kernel-core/src/snapshot.rs:117-122 | When no flush worked and the first body block held something else, a crash can keep the new superblock and restore neither fabric: the checksum fails. |
| SnapshotStore.BlankDiskCost | kernel-core/src/snapshot.rs:117-122 | The same for a blank disk and any fabric of one node. |
| SnapshotStore.SameBody | kernel-core/src/snapshot.rs:182-187 | A superblock with a body's length and digest restores that body or nothing. |
| SnapshotStore.SuperblockReads | kernel-core/src/snapshot.rs:127-137 | The superblock a commit writes is read back with the body's length and digest. |
| SnapshotStore.BodyReads | kernel-core/src/snapshot.rs:172-180 | Cutting into zero-filled blocks and joining them up to the length gives the body. |
| DiskLayout.RestoredAnswers | kernel-core/src/snapshot.rs:155-188 | What restore answers to any blocks, byte by byte: BadMagic, BadVersion, an I/O error, BadChecksum, or what the body decodes to. |
| DiskLayout.SuperblockLayout | kernel-core/src/snapshot.rs:127-137 | Where each field of the superblock stands, the magic and the version as bytes. |
| DiskLayout.HeaderLayout | kernel-core/src/snapshot.rs:380-392 | The header: node count, edge count and clock, lowest byte first. |
| DiskLayout.NodeLayout | kernel-core/src/snapshot.rs:263-267 | Where identity, time, weight, tag and content of a node stand. |
| DiskLayout.EdgeLayout | kernel-core/src/snapshot.rs:368-378 | Where source, target and kind of an edge stand, and the number of each kind. |
| DiskLayout.TagsAre | kernel-core/src/fabric.rs:121-136 | The number of each kind of content. |
| DiskLayout.StringLayout | kernel-core/src/snapshot.rs:221-225 | Two bytes of length, then the bytes. |
| KernelDisk.CommittedRestores | kernel-core/src/snapshot.rs:155-188 | A committed superblock over its body restores what the body decodes to. |
| KernelDisk.DiskRoundTrip | kernel-core/src/snapshot.rs:90-188 | Every fabric within the limits comes back from the disk a commit leaves. |
| KernelDisk.WriteBody | kernel-core/src/snapshot.rs:108-119 | From any state of the cache, the block loop with its interspersed flushes writes the body, and at no moment, failed writes included, gives block 0 a content it could not have before; if no flush failed, at most 32 writes were on their way at any moment. |
| KernelDisk.Persist | kernel-core/src/snapshot.rs:90-152 | From any state of the cache: at every moment and on every exit block 0 may hold what it could before or the new superblock; with no earlier superblock write cached a crash leaves old or new; once the superblock may be on its way after a flush that worked, new whenever the superblock survived; on success restore returns the fabric, and if no flush failed, so does restore after any later crash. |
| KernelDisk.BuildSuperblock | kernel-core/src/snapshot.rs:127-137 | Fields, digest, zeros up to a block. |
| KernelDisk.Restore | kernel-core/src/snapshot.rs:155-188 | Reads fail, or the result is that of the disk's visible content. |
| StorageAgent.Agent.AdvanceProbe | kernel-core/src/storage_agent.rs:199-206 | The probe stays in LBA 8 to 127. |
| StorageAgent.Agent.ExecuteAction | kernel-core/src/storage_agent.rs:154-197 | Writes only at the probe; if its read succeeded, neither reads nor crashes can tell the disk from before. |
| StorageAgent.RunAgent | kernel-core/src/storage_agent.rs:154-206 | The same for any run of actions and every state in it. |
| StorageAgent.WriteBackSame | kernel-core/src/storage_agent.rs:174-188 | Writing back what was read adds no possible content to the block. |
| StorageAgent.SameImagesRestoreAlike | kernel-core/src/storage_agent.rs:174-188 | So restore returns the same as before, now and after any crash. |
| StorageAgent.ShortBodyOutOfReach | kernel-core/src/storage_agent.rs:93-93 | No run of the agent, failed reads included, changes what is restored from a snapshot of at most seven body blocks, or what can be restored after a crash. |
| StorageAgent.OverwrittenRestores | kernel-core/src/snapshot.rs:155-188 | With one block behind the superblock overwritten restore fails its checksum exactly when the block is in the body and differs on a body byte, and returns the same as before otherwise. |
| StorageAgent.UncheckedReadCost | kernel-core/src/storage_agent.rs:178-186 | So does restore after a write that follows a failed read. |
| StorageAgent.UncheckedCrashImages | kernel-core/src/storage_agent.rs:178-186 | A crash after that write leaves exactly what one before it could have left, or that with the block overwritten. |
| StorageAgent.UncheckedCrashCost | kernel-core/src/storage_agent.rs:178-186 | If every crash before it restored a fabric, one after it restores one of those or fails its checksum, and can fail exactly when the buffer spoils the body of one of them. |
| DiskRuns.RunDisk | kernel-core/src/snapshot.rs:90-152 | Over any sequence of commits, agent actions and power losses block 0 only ever names committed bodies. |
| DiskRuns.LifeOfADisk | kernel-core/src/snapshot.rs:66-72 | From a blank disk through any sequence of commits of any fabrics, finished or not and flushed or not, agent actions and power losses: a crash at any moment restores an error or what exactly one of the committed encodings decodes to, which is the fabric itself exactly when its lengths fit. |
| DiskRuns.CommitThenAgent | kernel-core/src/storage_agent.rs:174-188 | After a successful commit of any fabric and any agent run whose reads succeeded, restore returns what its encoding decodes to, the fabric itself exactly when its lengths fit, or an I/O error. |
| VectorClocks.MergeIsLub | src/distributed/vclock.rs:77-87 | Merge is the least upper bound of two clocks. |
| VectorClocks.VectorClock.DoTick | src/distributed/vclock.rs:64-69 | Raises the replica's own counter by one and returns it. |
| VectorClocks.VectorClock.DoMerge | src/distributed/vclock.rs:77-87 | Takes the larger counter everywhere, in any iteration order. |
| VectorClocks.VectorClock.PartialCmp | src/distributed/vclock.rs:91-121 | Less, Equal, Greater or None exactly as the clocks compare component by component, whatever the iteration order and early exits. |
| Conflicts.ResolveConflict | src/distributed/conflict.rs:86-154 | Returns what the selected strategy prescribes, tie-breaks included. |
| Conflicts.MergeEdgesUnion | src/distributed/conflict.rs:139-147 | The merged context keeps the local edges as they are, adds remote edges only for new targets and once each, and covers the union of the targets. |
| Conflicts.LastWriterConverges | src/distributed/conflict.rs:90-110 | Both replicas of a last-writer conflict keep the same, newer version. |
| Conflicts.StructuralMergeConverges | src/distributed/conflict.rs:119-153 | Both replicas of a structural merge agree on the targets; on the means exactly when something was observed or they agreed before; on the whole node exactly when, besides, content, counts and variances agreed and one context extends the other. |
| Conflicts.WeightedBetween | src/distributed/conflict.rs:127-136 | A merged mean lies between the two. |
| Conflicts.MergedMeans | src/distributed/conflict.rs:118-137 | Each merged mean times all observations is the local mean times the local ones plus the remote mean times the remote ones, the three counts of a version added up; with none it stays local. |
| Conflicts.ResolutionIs | src/distributed/conflict.rs:60-154 | A hard violation on either side branches, different versions keep the later one, equal versions keep the local node but for means and context. |
| Conflicts.SettlementIs | src/distributed/conflict.rs:86-154 | Resolution stays within the lineage; exactly when the local version, and exactly when the remote version, is what it leaves. |
| Replicas.ConflictEffect | src/distributed/mod.rs:125-161 | What a conflict leaves at the receiver: when the local version is still in the fabric, both versions in the log, and on a branch the remote version in place with the known version unchanged. |
| Replicas.BranchesSwap | src/distributed/mod.rs:150-156 | Two replicas that receive each other's branched version swap versions, with what they know unchanged. |
| Replicas.BranchReplacesLocal | src/distributed/mod.rs:150-156 | The failing case from empty replicas: the fabric has the remote version, the gossip state the local one's version number, and only the log the local one. |
| Replicas.DistributedFabric.DoAddNode | src/distributed/mod.rs:69-75 | Clock, store and known version after a local write. |
| Replicas.DistributedFabric.DoReceive | src/distributed/mod.rs:84-164 | The whole new state and outcome of a receive in each of its branches. |
| Replicas.DistributedFabric.Settle | src/distributed/mod.rs:126-161 | Store, known version and log after a conflict, for either resolution. |
| Replicas.DistributedFabric.GenerateDigest | src/distributed/gossip.rs:70-79 | Every known node once, with its version, in any order. |
| Replicas.DistributedFabric.NeedsFromDigest | src/distributed/gossip.rs:82-95 | The digest's entries that are unknown or newer, in order. |
| Replicas.DistributedFabric.PackageNodes | src/distributed/mod.rs:177-186 | The stored nodes among those asked for, each with the replica's clock. |
| CausalRuns.CountsCompare | src/distributed/vclock.rs:91-121 | Clocks that count two causally closed sets of events are ordered as the sets are by inclusion. |
| CausalRuns.MergeStands | src/distributed/vclock.rs:77-87 | The merged clock counts the union of the two pasts. |
| CausalRuns.TickStands | src/distributed/vclock.rs:64-69 | A tick counts the new event on top of the past. |
| CausalRuns.StepKeeps | src/distributed/mod.rs:69-186 | Every add, shipment and delivery keeps every clock in the world equal to the counts of its ghost past. |
| CausalRuns.RunKeeps | src/distributed/mod.rs:69-186 | So does every run of any number of replicas over a network that delays, repeats and drops. |
| CausalRuns.ClocksAreCausalPasts | src/distributed/vclock.rs:91-121 | In every run any two clocks on replicas, in known versions or in transfers compare exactly as their causal pasts do. |
| CausalRuns.HappenedBefore | src/distributed/vclock.rs:124-131 | One event's clock is below another's exactly when it is in the other's causal past. |
| CausalRuns.ReceiveIsCausal | src/distributed/mod.rs:84-164 | What a receive does is decided by the causal pasts of the two versions alone. |
| CausalRuns.KnownIsHeld | src/distributed/mod.rs:69-164 | In every run the known ids are the stored ids, and every known clock is below the replica's clock. |
| CausalRuns.StepsOnlyGrow | src/distributed/mod.rs:69-164 | No step loses a node or moves a clock back. |
| Gossip.PullAt | src/distributed/gossip.rs:82-95 | A whole digest, needs, package, receive round, node by node: unwanted nodes untouched, lacking ones taken with the sender's version, newer ones treated as a single receive. |
| Gossip.PullCovers | src/distributed/mod.rs:167-186 | After a pull in any run B knows every node A knew, has A's version of those it lacked, and lost none. |
| Gossip.PullUpdatesIff | src/distributed/mod.rs:177-186 | For a node both have and A knows in a later version, exactly when a pull leaves A's version at B, with no assumption on what either stores. |
| Gossip.StaleCopyShadows | src/distributed/mod.rs:177-186 | The failing case, step by step: write, relay of a stale copy, pull; B asks for the newer version, is sent it and keeps the old one. |
| KnownVersions.ReceiveRecords | src/distributed/mod.rs:84-164 | What a receive stores and records, clock by clock: nothing if covered, stored only if branched, the sender's clock for a new or newer version, and the outcome's own version with the ticked clock for any other conflict. |
| KnownVersions.AgreementStep | src/distributed/mod.rs:84-164 | A branch with another version ends the agreement of stored and recorded version, any other write restores it, nothing else touches it. |
| KnownVersions.VersionsAgreeIff | src/distributed/mod.rs:69-164 | In every run, for every replica and node, the recorded version is the stored one exactly when every such branch was followed by another write. |
| KnownVersions.SecondPullAsksIff | src/distributed/gossip.rs:82-95 | After a pull the same digest asks for a node again exactly when it was asked for, was known before, and its transfer was covered or branched. |
| KnownVersions.SecondPullAsksNothing | src/distributed/gossip.rs:70-95 | So in every run without an unmended branch a second pull asks for nothing unless a transfer was covered or branched. |
| ReplicaGraph.StoresStill | src/distributed/mod.rs:84-164 | A receive keeps the fabric and the replica's map on the same nodes. |
| ReplicaGraph.ReceiveKeepsIff | src/distributed/mod.rs:94-157 | A receive keeps the tables in agreement exactly when it ignores the version, or stores one without context; a branch exactly when it brings the context and indexed signature already there. |
| ReplicaGraph.FirstReceiveCost | src/distributed/mod.rs:94-105 | The failing case: the first node an empty replica receives, with a context. |
| ReplicaGraph.ReplaceDropsEdges | src/distributed/mod.rs:113-124 | A replaced node has no edge left in either direction, and the others keep theirs. |
| ReplicaGraph.NextEdgeErasesContext | src/fabric/mod.rs:735-749 | The next edge added from a replaced node is its whole context. |
| ReplicaGraph.MergeStaysInTheCache | src/distributed/mod.rs:141-149 | After a structural merge the context names both versions' targets, the edge tables none, and they agree exactly when neither version had a context. |
| FabricGraph.CreateKeeps | src/fabric/mod.rs:236-306 | Creating a node keeps the tables in agreement exactly when its context is the one its id has and it does not take the place of a node indexed under another signature; a fresh id without context always does. |
| FabricGraph.AddEdgeKeeps | src/fabric/mod.rs:631-674 | Adding an edge, or being refused, keeps the tables in agreement. |
| FabricGraph.RemoveKeeps | src/fabric/mod.rs:680-705 | So does removing all edges between two nodes. |
| FabricGraph.FadeKeeps | src/fabric/mod.rs:337-371 | So does fading a node, and no edge dangles. |
| FabricGraph.FadeLists | src/fabric/mod.rs:337-371 | After a fade every list is the old one without the node. |
| FabricGraph.MutateKeeps | src/fabric/mod.rs:784-832 | Mutating a node keeps the tables in agreement exactly when the closure leaves identity and context alone. |
| FabricGraph.ApplyKeeps | src/fabric/mod.rs:1162-1229 | So does every node action. |
| FabricGraph.ModifyLeavesOne | src/fabric/mod.rs:1193-1210 | Re-weighting leaves exactly one edge to the target, with the first one's kind and the new weight. |
| FabricGraph.ModifyFailsIff | src/fabric/mod.rs:1193-1210 | It fails half-way, with the edges gone, exactly on a self-edge. |
| Degrees.DegreesBalance | src/fabric/mod.rs:729-732 | Total out-degree, total in-degree and `edge_count` are equal in a coherent fabric. |
| FabricRuns.RunCoherent | src/fabric/mod.rs:236-832 | From a coherent fabric the tables agree after every operation exactly when every operation was permitted, and then both degree sums equal the edge count. |
| FabricRuns.StepKeeps | src/fabric/mod.rs:236-832 | Of all operations exactly a creation that does not fit and a closure that oversteps break the agreement. |
| FabricRuns.LifeCoherent | src/fabric/mod.rs:126-141 | The same for a fabric that starts empty. |
| FabricVersions.MutateIs | src/fabric/mod.rs:784-832 | After a mutation the node has the signature of its meaning, a version one later than the closure left it at, and the next Lamport stamp; everything else stays. |
| FabricVersions.MutateIndex | src/fabric/mod.rs:805-814 | A changed signature is indexed, for this node unless another had it, and the old one no longer leads here. |
| FabricVersions.AdjustIs | src/fabric/mod.rs:1211-1226 | Observing confidence changes confidence, version and stamp of the node, and nothing else. |
| FabricVersions.ActionRefused | src/fabric/mod.rs:1162-1192 | Signals do nothing anywhere, and every other action on a missing node is refused and does nothing. |
| FabricVersions.EdgeAdded | src/fabric/mod.rs:1181-1187 | An edge that is not refused, added or as an action, is the last of its source's list and changes no other. |
| FabricVersions.AddEdgeRefused | src/fabric/mod.rs:631-650 | Refused to itself first, then from a missing source, then to a missing target. |
| FabricVersions.CreateIs | src/fabric/mod.rs:280-306 | A new node gets the next stamp, and a signature goes on leading to the node that had it first. |
| FabricVersions.NodesStep | src/fabric/mod.rs:236-832 | What every operation does to every node and to the clock: only writes stamp, and only their node. |
| FabricVersions.RunSignatures | src/node/mod.rs:383-392 | Over every run signatures tell the meaning exactly when every node is created with a true one. |
| FabricVersions.VersionCounts | src/node/mod.rs:383-392 | Over every run that neither creates nor fades a node its version counts its mutations. |
| FabricVersions.RunStamped | src/temporal/mod.rs:33-37 | Over every run stamps are distinct and behind the clock. |
| FabricVersions.FadeCompleteIff | src/fabric/mod.rs:337-371 | Fading leaves every signature indexed exactly when no other node shares the faded one's, or the index led to another. |
| FabricVersions.TwinIsLost | src/fabric/mod.rs:312-318 | The failing case: two nodes with one content, the first fades, and the other is no longer found. |
| FabricRuns.PersistedCoherent | src/fabric/mod.rs:553-619 | Whatever the persisted lists say, the rebuilt fabric has exactly the listed ids, each with its last entry, and the edges whose ends are present; it is coherent exactly when no signature is indexed for a node that ends up with another one, which takes a repeated id. |
| FabricRuns.RepeatedIdCost | src/fabric/mod.rs:574-590 | Two entries under one id with different signatures: the first signature is indexed for a node that has the second. |
| FabricRuns.SelfEdgeLoads | src/fabric/mod.rs:592-612 | A persisted self-edge is loaded into a coherent fabric, and re-weighting it fails with the edge gone. |
| FabricRuns.PersistRoundTrip | src/fabric/mod.rs:526-619 | Exporting and rebuilding gives back nodes, edge lists in order, clock, and the reverse lists up to order. |
| FabricStore.Fabric.FromPersistedData | src/fabric/mod.rs:553-619 | The loading loops build exactly that fabric. |
| FabricStore.Fabric.CreateNode | src/fabric/mod.rs:236-306 | A High region refuses an unsigned node and changes nothing; otherwise the whole new state. |
| FabricStore.Fabric.DoAddEdge | src/fabric/mod.rs:631-674 | The error, or all four tables with the edge in. |
| FabricStore.Fabric.RemoveEdgesBetween | src/fabric/mod.rs:680-705 | How many edges went, and all tables without them. |
| FabricStore.Fabric.FadeNode | src/fabric/mod.rs:337-371 | The loops over outgoing targets and listed sources, on any tables, in any order; in a coherent fabric they remove every trace of the node and nothing else. |
| FabricStore.FadeListedIsFade | src/fabric/mod.rs:352-368 | In a coherent fabric looking up the listed sources loses no trace of the node. |
| FabricStore.Fabric.SyncNodeContext | src/fabric/mod.rs:735-749 | The node's context becomes its authoritative edge list. |
| FabricStore.Fabric.MutateNode | src/fabric/mod.rs:784-832 | Node, version, signature index and clock after the closure. |
| FabricStore.Fabric.ApplyAction | src/fabric/mod.rs:1162-1229 | Result and whole new state of each action. |
| FabricStore.Fabric.CountEdges | src/fabric/mod.rs:729-732 | The sum of the edge lists' lengths. |
| Traversal.BallIsWalks | src/bridge/bridge_fabric.rs:606-613 | Being within distance n is having an undirected walk of at most n edges of the given kinds. |
| Traversal.AdjacentIs | src/bridge/bridge_fabric.rs:634-656 | Two nodes are joined exactly when one lists an edge to the other of one of the kinds. |
| Traversal.NeighboursListed | src/bridge/bridge_fabric.rs:634-656 | In a coherent fabric the forward list and the reverse index together show every neighbour: completeness rests on the index. |
| Traversal.Expand | src/bridge/bridge_fabric.rs:634-656 | Exactly the unvisited neighbours of a node, each once. |
| Traversal.Traverse | src/bridge/bridge_fabric.rs:614-666 | Exactly the nodes at distance 1 to `max_depth`, each once, nearest first, without the start. |
| SemanticTable.SemanticStateTable.SweepExpired | src/bridge/semantic.rs:189-214 | Every lapsed checkout expires and its drafts are dropped, in any order, and whether there was one. |
| SemanticTable.SemanticStateTable.TryRegisterCheckout | src/bridge/semantic.rs:219-233 | Refused exactly while the target is locked. |
| SemanticTable.SemanticStateTable.DoRegisterProposal | src/bridge/semantic.rs:239-269 | The error, or the new draft with the old one superseded and returned. |
| SemanticTable.SemanticStateTable.DoRecordFinalize | src/bridge/semantic.rs:279-350 | Outcome and new state in one critical section; the frozen list is the finalized set, in any order. |
| SemanticTable.SemanticStateTable.ReleaseSnapshotLock | src/bridge/semantic.rs:355-366 | The lock is let go and the snapshot recorded. |
| ConsensusTargets.SweepTargetOk | src/bridge/semantic.rs:189-214 | A sweep keeps the rounds paired, moves no terminal status, finalizes nothing, and does nothing to a locked target. |
| ConsensusTargets.ProposeSound | src/bridge/semantic.rs:239-269 | Whatever node it brings, a proposal keeps one draft per checkout, and finalized stays everything but that node. |
| ConsensusTargets.ProposeOkIff | src/bridge/semantic.rs:239-269 | A proposal keeps the rounds paired and takes nothing back exactly when its node is new to the target or the checkout's own draft. |
| ConsensusTargets.FinalizeOk | src/bridge/semantic.rs:279-350 | A finalize adds exactly its proposal to the finalized set and never happens on a locked target. |
| ConsensusRuns.HostedOnceIff | src/bridge/bridge_fabric.rs:1273-1301 | No proposal gains a second target exactly when the step proposes no node another target has. |
| ConsensusRuns.LockStep | src/bridge/semantic.rs:332-350 | Only a finalize that closes the round takes the lock, only a commit lets it go. |
| ConsensusRuns.StepKeepsIff | src/bridge/bridge_fabric.rs:1150-1490 | A step of any thread keeps the system invariant and moves every target only forward exactly when it is orderly. |
| ConsensusRuns.RunKeepsIff | src/bridge/bridge_fabric.rs:1150-1490 | An interleaving keeps the invariant in every state and moves every target forward in every step exactly when it is orderly. |
| ConsensusRuns.RunKeeps | src/bridge/bridge_fabric.rs:1150-1490 | So from its first state to its last an orderly interleaving takes nothing back. |
| ConsensusRuns.DraftsAreOpen | src/bridge/semantic.rs:239-350 | In every state any run reaches, orderly or not, a draft's checkout is open, a finalized proposal's is closed, and no checkout has two of either. |
| ConsensusRuns.RoundsPair | src/bridge/semantic.rs:239-350 | In every state an orderly run reaches finalized checkouts and finalized proposals pair off. |
| ConsensusRuns.LockedIsQuiet | src/bridge/semantic.rs:332-350 | In any run, orderly or not, a locked target has no open checkout and no draft, and no step but a release changes it. |
| ConsensusRuns.TargetIsFound | src/bridge/bridge_fabric.rs:1401-1408 | In any run the look-up after finalizing finds a target. |
| ConsensusRuns.SnapshotIsTheFinalizedSet | src/bridge/bridge_fabric.rs:1397-1432 | In an orderly run the ConsensusSnapshot names the target the call locked and carries exactly what is finalized there when the lock is released. |
| ConsensusRuns.TargetIsNotLost | src/bridge/bridge_fabric.rs:1401-1408 | In an orderly run it finds the one target that was locked. |
| ConsensusRuns.LockedIffOneCall | src/bridge/semantic.rs:332-366 | In an orderly run a target not leaked is locked exactly while one call is between `record_finalize` and `release_snapshot_lock`; with a Normal default region none leaks. |
| ConsensusRuns.SnapshotsGrow | src/bridge/semantic.rs:332-366 | In an orderly run the snapshots of one target form a strictly increasing chain of finalized sets. |
| ConsensusRuns.TerminalStays | src/bridge/semantic.rs:189-350 | However an orderly run goes on, no status leaves a terminal value. |
| ConsensusRuns.LockedForeverIffHigh | src/bridge/bridge_fabric.rs:1410-1424 | A call that closed a round in an orderly run leaves its target locked in every continuation, orderly or not, exactly when the default region is High. |
| ConsensusRuns.LeakIsForever | src/bridge/bridge_fabric.rs:1410-1424 | A call that failed has left its target locked and unchanged in every continuation, and the region is High. |
| DraftEnds.DraftBecomes | src/bridge/semantic.rs:189-330 | In every state and step of every run a draft becomes Superseded exactly when another node is proposed under its checkout, Finalized exactly when it is finalized, Dropped exactly when the target is swept after its checkout ran out. |
| DraftEnds.CheckoutBecomes | src/bridge/semantic.rs:189-330 | And a checkout Closed exactly by finalizing its draft, in time or not, and Expired exactly when swept after it ran out. |
| DraftEnds.RefusedBecause | src/bridge/semantic.rs:293-301 | Which refusal each status of a proposal gives, and that a refusal changes nothing. |
| DraftEnds.NotTakenBecause | src/bridge/semantic.rs:247-257 | Which refusal each status of a checkout gives to a proposal under it. |
| Reproposals.FinalizedIsUndone | src/bridge/bridge_fabric.rs:1298-1316 | Check out, propose, finalize, commit, check out, propose the same node: what the snapshot carries is finalized no more, and its checkout is closed without a finalized proposal. |
| Reproposals.SnapshotRepeats | src/bridge/semantic.rs:332-366 | Finalized once more, the second snapshot carries the same set as the first. |
| Reproposals.WrongTargetReleased | src/bridge/bridge_fabric.rs:1401-1432 | A node proposed on a second target between the two critical sections: the snapshot names that target, on which nothing was finalized, and the first stays locked with no call in flight, in a Normal region. |
| UnclosedRounds.LeakHappens | src/fabric/mod.rs:247-256 | Check out, propose, finalize, fail from an empty table: locked by nobody, with no snapshot written. |
| UnclosedRounds.OverdueIff | src/bridge/semantic.rs:9-11 | In every state and step of orderly runs, a round begins to be overdue exactly when time passes the end of its last outstanding checkout, and ceases to be exactly with a registered checkout that has time left or with a finalized draft. |
| UnclosedRounds.OverdueUntilRevived | src/bridge/semantic.rs:9-11 | However an orderly run goes on without either, the round stays overdue and its target gets no snapshot. |
| UnclosedRounds.OverdueHappens | src/bridge/semantic.rs:308-328 | Two checkouts, the first finalized, the second out of time: a finalized proposal in no snapshot, and nobody about to write one. |
| UnclosedRounds.StrandedIsOverdue | src/bridge/semantic.rs:189-214 | A stranded round is an overdue one without an open checkout. |
| UnclosedRounds.StrandedIff | src/bridge/bridge_fabric.rs:1189-1190 | Overdue with no checkout even open: in every state and step of orderly runs that begins exactly with a sweep that expires the last open checkouts, and ends exactly with a checkout. |
| UnclosedRounds.StrandedUntilCheckout | src/bridge/semantic.rs:9-11 | However an orderly run goes on, a stranded round stays so as long as nobody checks its target out. |
| UnclosedRounds.StrandedHappens | src/bridge/semantic.rs:9-11 | Two checkouts, the first finalized, the second expired by a sweep: no checkout open, nothing locked, a finalized proposal in no snapshot. |
| Aggregation.AggregationLayer.Evict | src/immune/aggregation.rs:131-145 | Keeps, in order, exactly what is inside the window, and everything before one window has passed. |
| Aggregation.AggregationLayer.SetResponseMode | src/immune/aggregation.rs:203-212 | Sets the mode and, for Disabled only, the moment. |
| Aggregation.AggregationLayer.ResponseMode | src/immune/aggregation.rs:214-235 | The mode in force, a Disabled that has lapsed being AlertOnly; the region stays as it is. |
| Aggregation.AggregationLayer.Evaluate | src/immune/aggregation.rs:245-331 | Outcome and new state of one evaluation of one region. |
| AggregationRuns.RetainLater | src/immune/aggregation.rs:131-145 | Evicting early loses nothing a later window would keep. |
| AggregationRuns.RunAgrees | src/immune/aggregation.rs:203-331 | After any run what is held cannot be told from the full record by any later window. |
| AggregationRuns.ForgettingIsHarmless | src/immune/aggregation.rs:245-331 | Over any run with mode changes and overlapping regions each answer is that of an evaluator that keeps everything. |
| AggregationRuns.RegionsAreApart | src/immune/aggregation.rs:196-201 | Calls on other regions change nothing. |
| AggregationRuns.ObservationsSpent | src/immune/aggregation.rs:263-292 | N times the convergences, and what is held, never exceed the observations. |
| AggregationRuns.ConvergencesSpent | src/immune/aggregation.rs:293-318 | M times the escalations, and what is held, never exceed the convergences. |
| AggregationRuns.SourcesConserved | src/immune/aggregation.rs:263-318 | No observation feeds two convergences and no convergence two escalations, counted source by source. |
| AggregationRuns.NothingPending | src/immune/aggregation.rs:293-318 | Between calls fewer than M convergences are held, or none saw damage. |
| AggregationRuns.EscalationHasDamage | src/immune/aggregation.rs:293-318 | Among an escalation's sources is a damage observation of its region, and the region was not disabled. |
| AggregationReplies.RetainInside | src/immune/aggregation.rs:131-145 | A window keeps exactly what is not older than it. |
| AggregationReplies.ModeInForce | src/immune/aggregation.rs:203-238 | In every run the last mode set is in force; before any it is Active, and a Disabled that has lapsed is AlertOnly. |
| AggregationReplies.ConvergesIff | src/immune/aggregation.rs:245-280 | A reply is not quiet exactly when the region is not disabled and the observations since its last convergence inside the window, this one included, come from at least N specializations. |
| AggregationReplies.EscalatesIff | src/immune/aggregation.rs:296-325 | A reply escalates exactly when it converges, the convergences since the last escalation inside the window, this one included, are at least M, and one of them had damage. |
| AggregationReplies.ReplyCarries | src/immune/aggregation.rs:268-331 | What a convergence reports of the observations inside its window, in order, and that an escalation carries the mode in force when the call began. |
| AggregationReplies.RecordIs | src/immune/aggregation.rs:281-318 | The full record, call by call: which observations and convergences there are, and up to where they are spent. |
| AggregationReplies.AllSpecsCount | src/immune/aggregation.rs:311-315 | An escalation names a specialization once for each of its convergences that had it. |
| CognitiveMap.AnomalyMap.RecordAnomaly | src/immune/cognitive_map.rs:172-207 | Extends the last cluster within the window, or starts one. |
| CognitiveMap.CutIsSegmentation | src/immune/cognitive_map.rs:168-171 | The batch reference cuts the sequence at the gaps longer than the window and only there. |
| CognitiveMap.SummaryIs | src/immune/cognitive_map.rs:184-206 | What a cluster says: first and last time, nodes in order, specializations once each in the order first seen, and the number of damages. |
| CognitiveMap.RecordOnSummaries | src/immune/cognitive_map.rs:184-206 | In time order only the last cluster can be extended, and it is exactly when the gap is within the window. |
| CognitiveMap.OnlineIsBatch | src/immune/cognitive_map.rs:172-207 | The clusters built online are the batch segments with their times, nodes, first-seen specializations and damage counts. |
| CognitiveMap.RegionIsBatch | src/immune/cognitive_map.rs:172-207 | The same for each region, however calls are interleaved. |
| Moments.OneMoreValue | src/immune/baseline.rs:87-93 | The Welford step keeps the mean exact and adds the product of distances to the squared deviations. |
| Baseline.WelfordTracker.Observe | src/immune/baseline.rs:87-93 | The fields are the snapshot the tracker began with, continued by the values seen. |
| Baseline.WelfordTracker.Variance | src/immune/baseline.rs:61-67 | The mean squared deviation of whatever values the fields describe, never negative; 0 without values. |
| Baseline.WelfordTracker.SampleVariance | src/immune/baseline.rs:70-76 | The deviations over n - 1, 0 below two values. |
| Baseline.ContinuesExactly | src/immune/baseline.rs:42-49 | Continuing from a snapshot of some values describes the concatenation. |
| Baseline.ContinuesFromAnything | src/immune/baseline.rs:42-49 | Continuing from any three numbers adds exactly the sum of the values and of their squares. |
| Baseline.RestoredIsTheSame | src/immune/baseline.rs:42-49 | A tracker restored from a snapshot is the tracker that never stopped. |
| Baseline.TrackWithPause | src/immune/baseline.rs:42-49 | A tracker stopped, snapshotted, restored and continued describes the whole sequence. |
| Confidence.Distribution.Observe | src/confidence/mod.rs:70-82 | The update, with its saturating count and its clamp. |
| Confidence.ObservedIs | src/confidence/mod.rs:70-82 | One observation of any distribution in numbers: the saturating count, the mean's share of the way, which stays in range, and the variance. |
| Confidence.NextIsTrue | src/confidence/mod.rs:70-82 | One more value keeps mean and variance true, and the clamp has nothing to do. |
| Confidence.ObservedIsTrue | src/confidence/mod.rs:70-82 | From no observations the distribution is the true mean and population variance, whatever the prior. |
| Confidence.VarianceAtMostQuarter | src/confidence/mod.rs:50-56 | The variance of values in [0, 1] is at most 1/4. |
| Confidence.ObserveEach | src/confidence/mod.rs:70-82 | The same through the object, for any sequence. |
| Dispatch.AccountStep | src/bridge/subscription.rs:323-460 | Every atomic access keeps the depth equal to the senders, tasks and workers it stands for. |
| Dispatch.PressureStep | src/bridge/bridge_fabric.rs:514-540 | The depth with all that is committed to it rises, and then by one, exactly when one of the subscriber's tasks is let in: by a check that saw the depth below the threshold, or by a drain. |
| Dispatch.PressureIsHolding | src/bridge/subscription.rs:323-460 | That sum is the number of the subscriber's tasks anywhere in the pool. |
| Dispatch.HoldingStep | src/bridge/subscription.rs:323-460 | Of any kind of tasks there are more in the pool only when one is let in. |
| DispatchRuns.StepKeeps | src/bridge/subscription.rs:323-473 | Every step of every thread, the drain's unchecked enqueue included, keeps the pool's invariant. |
| DispatchRuns.RunKeeps | src/bridge/subscription.rs:323-473 | So does every interleaving. |
| DispatchRuns.DepthIsExact | src/bridge/subscription.rs:323-341 | In every run, drains included, the depth is senders between increment and send, queued tasks and workers before the decrement; it is never negative. |
| DispatchRuns.UndrainedBounded | src/bridge/bridge_fabric.rs:514-540 | In every run the tasks in the pool that were not drained never exceed the threshold minus one plus the dispatchers and the workers; with threshold 0 there are none. |
| DispatchRuns.DepthIsBounded | src/bridge/bridge_fabric.rs:514-540 | So the depth exceeds that bound at most by the drained tasks still in the pool, and at most by the drains ever taken. |
| DispatchRuns.OnceOrTwice | src/bridge/subscription.rs:363-473 | An accepted task is waiting, at one worker, or was invoked once, or twice because the first answer asked for it. |
| DispatchRuns.ShutdownLosesNothing | src/bridge/subscription.rs:343-355 | When the workers are gone every accepted task has been seen through and no depth is left. |
| DispatchRuns.NoWorkersNoTasks | src/bridge/subscription.rs:300-320 | A pool without workers accepts nothing. |
| DispatchRuns.ClosedWindsDown | src/bridge/subscription.rs:343-377 | Once closed, every worker step uses up remaining work and no other step adds any. |
| DispatchRuns.ClosedIsNeverStuck | src/bridge/subscription.rs:363-377 | A worker that has not left can always take a step, so joining the workers returns. |
| Embedding.CauchySchwarz | src/embedding/mod.rs:34-48 | The squared dot product is at most the product of the squared lengths, for vectors of any length. |
| Embedding.CosineInRange | src/embedding/mod.rs:30-48 | The similarity is in [-1, 1], and in [0, 1] for non-negative vectors. |
| Embedding.SimilarityIs | src/embedding/mod.rs:34-48 | Times both lengths it is the sum of the products, position by position; 0 for a vector of length zero. |
| Embedding.DifferentDimensions | src/embedding/mod.rs:34-37 | 0 for vectors of different dimensions. |
| Embedding.FullySimilarIff | src/embedding/mod.rs:34-48 | It is 1 exactly when one vector is a positive multiple of the other and they are not zero. |
| BagOfWords.BagOfWordsEmbedder.NumberTokens | src/embedding/bow.rs:80-91 | The vocabulary is exactly the corpus's tokens, numbered one-to-one onto 0 to dim - 1. |
| BagOfWords.BagOfWordsEmbedder.BuildVocabWithIdf | src/embedding/bow.rs:77-110 | Each token's weight is ln(N/df) + 1 with its true document frequency. |
| BagOfWords.IdfAtLeastOne | src/embedding/bow.rs:71-76 | Every weight is at least 1. |
| BagOfWords.IdfIs | src/embedding/bow.rs:101-109 | A weight is one more than the logarithm of all documents over those that have the token. |
| BagOfWords.EntryIs | src/embedding/bow.rs:146-177 | A token's entry times the length of the text is the number of its places times its weight. |
| BagOfWords.BagOfWordsEmbedder.Embed | src/embedding/bow.rs:146-177 | Every token's weighted frequency at its own place, in any iteration order, and no negative entry. |
| Resonance.JaccardInUnit | src/fabric/mod.rs:930-951 | The fallback similarity is in [0, 1], and 1 exactly for equal non-empty token sets. |
| Resonance.EmbeddedScoreInUnit | src/fabric/mod.rs:853-924 | With no negative weight on the node's edges the score of embedded texts is in [0, 1]. |
| Resonance.FallbackScoreInUnit | src/fabric/mod.rs:853-924 | The same for the fallback over token sets. |
| Resonance.ContextScoreIs | src/fabric/mod.rs:916-924 | A tenth of the outgoing weights and half the incoming edges, 1 from ten points on. |
| Resonance.JaccardIs | src/fabric/mod.rs:930-951 | The coefficient times the union is the intersection; 0 for two empty sets. |
| Resonance.ScoreAdds | src/fabric/mod.rs:841-876 | Each component adds six, two and two tenths of itself. |
| Resonance.ScoreEmbedded | src/fabric/mod.rs:853-876 | The score of a query and a node embedded over any vocabulary, in numbers: equal texts with a known token score six tenths and the two other parts; without negative weights it is in [0, 1]. |
| Resonance.ScoreInUnitIff | src/fabric/mod.rs:916-924 | The score is in range whatever its semantic and temporal components are, if and only if the connectivity is not negative. |
| Resonance.NegativeWeightCost | src/fabric/mod.rs:631-674 | One edge of weight -50, which `add_edge` accepts, puts every score of its source below zero. |
| Wrap.WrapIter.Next | kernel-core/src/framebuffer.rs:176-200 | Yields the next line of split-then-chunk and leaves the rest; ends exactly at the end of the text. |
| Wrap.WrapLines | kernel-core/src/framebuffer.rs:158-200 | Draining the iterator gives split-then-chunk. |
| Wrap.NextIsHead | kernel-core/src/framebuffer.rs:182-197 | Each call makes progress and takes the reference's first line. |
| Wrap.LineIs | kernel-core/src/framebuffer.rs:176-200 | Each line is the next piece of the text and as long as fits, unless a newline follows or the text ends. |
| Wrap.MaxCharsFit | kernel-core/src/framebuffer.rs:185-187 | As many characters to a line as fit in its width. |
| Wrap.LinesFit | kernel-core/src/framebuffer.rs:182-197 | Lines fit, contain no newline, and joined are the text without newlines. |
| Wrap.EndsIff | kernel-core/src/framebuffer.rs:179-181 | The iterator ends if and only if a character fits or the text is newlines only. |

## Left out

- Hash internals: BLAKE3 is an unknown function; where two bodies must be told apart, no other byte string has the digest of the body in question.
- Counter widths outside the codec: clocks, versions, clusters' counts and queue depths are unbounded; the confidence count saturates as in the source.
- Float rounding: weights in snapshots are four opaque bytes, everything else is over the reals; square root, logarithm and the recency factor are given by their laws.
- Input and output: block operations succeed or fail arbitrarily, and a failed write may or may not have reached the cache; error texts are not modelled.
- Disks of 2^32 blocks or more, and the allocation of a restore buffer for an absurd superblock length.
- Rust strings are byte sequences in the codec and character sequences in the wrapper, so byte offsets within a character do not occur.
- Fabric timestamps, content fingerprints, signatures, tracing and automatic embedding on insertion.
- The replica layer's runs keep a map of nodes; what one receive does to the edge tables of the fabric it embeds is proved beside them, but that a fade also drops the node from the cached contexts of others is not fed back into later transfers.
- Relaxed memory ordering: the dispatch pool's atomics are taken as sequentially consistent.
- The `lagged` flag and the observation and panic counters of a subscription, which no decision reads.
- The wait for queues to drain while a region is being terminated, which only reads depths; the enqueue before it is modelled.
- Changes of the default region's sensitivity while finalize calls run: it is fixed when the bridge is built.
- Order of the specialization lists in aggregation outcomes, which the source sorts.
- Lock poisoning and panics in user closures; a panicking callback counts as an unrecoverable error.
- Sorting and truncating of resonance results, z-scores, composite activation weights.
- Tokenizing, region maps other than clusters, multivariate baselines, quarantine, policy, archives, metrics, identity and key handling.
- The kernel outside the snapshot, the storage agent's disk actions and line wrapping.
- The dispatch pool's loops and the calls that use the semantic table are steps of a system rather than methods, since what is proved about them is their interleaving.
- The storage agent's statistics and the model it learns.
- Traverse: assumes the coherence that permitted operations keep, on which its completeness rests.
- DepthIsBounded: gives the drained tasks in the pool no bound of their own, since each call of the drain enqueues one.
- Default thresholds and windows of the aggregation: they are parameters; every result holds for all of them, the defaults included.
