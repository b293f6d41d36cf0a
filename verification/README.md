# Lachesis consensus: a verified model

This project models the core of lachesis-base, an asynchronous Byzantine fault tolerant consensus on a
graph of events, together with the gossip buffer that orders incoming events and the write cache that
stores the results.

The layers, bottom up:

- `Basics`: options, bytes and lists without repetition.
- `Validators`, `Weights`: weighted validator groups, 32-bit weight arithmetic, quorums, counters.
- `Dags`, `Causality`: events and their admission checks, observation, forks, the forkless-cause relation.
- `Lru`: the weighted LRU cache used by several components.
- `Vectors`, `VecState`, `VecAdd`, `VecEngine`, `VecIndex`: the vector-clock index. Its tables are proved
  to agree with plain reachability, and its forkless-cause answers with the relation of `Causality`.
  `VecCap` is a run past the limit on branches, where they no longer agree.
- `Frames`, `FrameCalc`, `FrameCheck`: frames and roots as functions of the graph, and the loops that compute
  them. `Growth`: none of this changes when the graph grows.
- `Voting`, `ElectionSpec`, `ElectionProof`, `Elections`: virtual voting as a recursive function of a root,
  the election as a state machine, the proof that the machine computes that function, and the imperative
  election that runs the machine.
- `RootStore`, `Consensus`, `ConsensusGrowth`, `Confirmations`, `Orderers`: stored roots, what a node keeps
  true from event to event and while the graph around it grows, the confirmation walk, and the orderer that
  drives it all.
- `EventsBuffers`: the ordering buffer.
- `KeyOrder`, `Flushables`, `FlushIterators`, `SyncedPools`: the write cache, its merge iterator and the
  pool that flushes several databases together.

The consensus theorems hold under one hypothesis, `Consensus.Honest`: validators that fork anywhere in the
graph hold at most a third of the weight. An orderer has its own event source `input`, a finite graph of
well-formed events, and holds an ancestor-closed part of it. Sources of different orderers may differ. What
links them is one honest graph, `world`, that extends them all. `ConsensusGrowth.GoingGrows` carries
everything an orderer keeps true from its own source to `world`.

The main result is `Orderers.OrderersAgree`. Two orderers in one honest world, fed any events in any
parents-first orders, have applied prefixes of one sequence of Atropoi. One that holds all the events of the
other is not behind it. The events they handed to the application are prefixes of one sequence too, each at
the same frame. Orderers that hold the same events have stored the same roots, and orderers of one
application seal the epoch at the same block. `Orderers.DecidesAllItCan` says when a frame is decided: as
soon as the stored roots settle its Atropos, and not before.

Where the code and a comment differ, the model follows the code. vecengine/index.go:144-148 gives as reason
for sharing the last branch past 1024 branches a validator that this validator is known to be a cheater.
`VecEngine.Engine.Add` shows that the tables stay exact if and only if the limit is not reached, and
`VecCap.CapHidesFork` gives an event that sees the fork without any mark in its vector. What this means for
agreement is not part of this model: `Orderers.Orderer.Process` is about events below the limit.

## Model

| member | source | states |
|---|---|---|
| `Validators.QuorumBounds` | inter/pos/validators.go:187-189 | doubling the total cannot wrap in 32 bits, and the quorum is above two thirds of the weight and at most all of it |
| `Validators.QuorumOverlap` | inter/pos/validators.go:187-189 | two quorum sets share more than a third of the weight |
| `Validators.HonestInBoth` | inter/pos/validators.go:187-189 | when at most a third of the weight cheats, two quorum sets share a validator that does not |
| `Validators.DoubleCount` | abft/election/sort_roots.go:10-25 | weighted double counting: if every validator misses little weight, some validator is missed by little weight |
| `Weights.WrapIsCaught` | inter/pos/validators.go:90-113 | a 32-bit running sum that wraps is smaller than before, which the accumulation check sees |
| `Weights.SortedArray` | inter/pos/validators.go:164-174 | the array lists each validator of the map once, by descending weight and then ascending ID |
| `Weights.CalcCaches` | inter/pos/validators.go:90-113 | indexes invert the sorted array and the total is the true sum, or the overflow check refuses |
| `Weights.Build` | inter/pos/validators.go:48-82 | succeeds exactly when the true sum of the weights is within the limit, and the group is the weights of the map |
| `Weights.GroupUnique` | inter/pos/validators.go:48-82 | one map of weights builds one group, whatever the order of iteration |
| `Weights.TotalWeight` | inter/pos/stake_bigint.go:27-33 | the sum over the map does not depend on the order of iteration |
| `Weights.BuildBig` | inter/pos/stake_bigint.go:36-50 | weights are divided by the least power of two that brings their sum below 2^31, so any of them build without overflow |
| `Weights.LeastShiftOnce` | inter/pos/stake_bigint.go:36-42 | the total determines the shift |
| `Weights.WeightCounter.CountByIdx` | inter/pos/stake.go:47-55 | counts a validator once; the sum is the weight of the distinct counted validators and never wraps |
| `Weights.WeightCounter.Count` | inter/pos/stake.go:41-44 | counts by ID; an ID outside the group counts as the first validator |
| `Weights.WeightCounter.HasQuorum` | inter/pos/stake.go:58-60 | true exactly when the counted validators are a quorum set |
| `Dags.ValidateBasic` | eventcheck/basiccheck/basic_check.go:24-61 | admits exactly the events within limits, epoch included, with initialised fields and distinct parents; each error exactly in its case |
| `Dags.ValidateParents` | eventcheck/parentscheck/parents_check.go:25-64 | admits exactly the events whose Lamport time, self-parent and sequence number fit their parents; each error exactly in its case |
| `Dags.AdmittedExtends` | eventcheck/parentscheck/parents_check.go:25-64 | an event that passes both checks keeps the graph well formed |
| `Dags.CheaterIsIncomparable` | vecengine/index.go:190-231 | two events of one validator with equal sequence number exist exactly when two of its events are not self-ancestors of each other |
| `Causality.ForkExclusive` | vecfc/forkless_cause.go:24-82 | with few cheaters, two events of one validator that both forkless-cause something are on one self-parent chain |
| `Causality.ForklessCauseStable` | vecfc/forkless_cause.go:28-38 | events added later never change a forkless-cause answer |
| `Causality.CauseIsObserved` | vecfc/forkless_cause.go:40-82 | forkless cause implies observation |
| `Lru.Cache.Add` | utils/simplewlru/simplewlru.go:65-84 | the pair becomes the most recent; what stays is the longest most-recent part within both limits |
| `Lru.Cache.Normalize` | utils/simplewlru/simplewlru.go:179-185 | drops the oldest pairs, and no more than the limits require |
| `Lru.Cache.Resize` | utils/simplewlru/simplewlru.go:173-177 | under the new limits the longest most-recent part stays |
| `Lru.Cache.Get` | utils/simplewlru/simplewlru.go:87-96 | answers from the map and moves the key to the front |
| `Lru.Cache.Remove` | utils/simplewlru/simplewlru.go:117-123 | removes one key; map, list and weight stay in step |
| `Lru.Cache.RemoveOldest` | utils/simplewlru/simplewlru.go:126-134 | removes and returns the least recent pair, or answers none exactly on an empty cache |
| `Vectors.LowestAfterSeq.Set` | vecfc/vector.go:53-60 | writing a byte-encoded entry extends with zeros and changes no other entry |
| `Vectors.HighestBeforeSeq.Set` | vecfc/vector.go:82-89 | the same for pairs of 32-bit words |
| `Vectors.CollectFrom` | vecfc/vector_ops.go:49-79 | entrywise merge: a fork mark wins, otherwise highest of the highest and lowest of the lowest |
| `Vectors.GatherFrom` | vecfc/vector_ops.go:81-96 | a fork mark if any branch has one, otherwise the entry with the highest sequence number |
| `VecState.ForkIsOverlap` | vecengine/index.go:207-231 | two observed events with equal sequence number make the ranges of two branches overlap |
| `VecState.OverlapIsFork` | vecengine/index.go:207-231 | overlapping ranges of two branches of one validator are an observed fork |
| `VecAdd.DetectedIsSeen` | vecengine/index.go:190-231 | the two fork-detection passes find exactly the validators that the event sees forking |
| `VecAdd.MarksClosed` | vecengine/index.go:234-252 | a non-zero LowestAfter entry is inherited by all ancestors, so stopping the walk there loses none |
| `VecAdd.AddKeepsExact` | vecengine/index.go:166-255 | if the tables agree with the graph, they agree after one more event |
| `VecEngine.Engine.FillGlobalBranchID` | vecengine/index.go:113-163 | its error never occurs; the branch table and the branch are the ones of the placing rule; below the cap the event extends the chain of its branch |
| `VecEngine.Engine.DetectForks` | vecengine/index.go:190-231 | marks all branches of exactly the detected validators and leaves other entries alone |
| `VecEngine.Engine.WalkAncestors` | vecengine/index.go:234-248 | the pruned walk terminates and stamps exactly the ancestors not stamped on this branch |
| `VecEngine.Engine.Add` | vecengine/index.go:71-75 | fails exactly on a missing parent; exact tables whose branches are non-empty stay exact if and only if the event does not need a branch past the 1024th; only validators that have forked have more than one branch |
| `VecEngine.StartsByFork` | vecengine/index.go:122-163 | an event that is given a new branch is a fork of an event that was there |
| `VecEngine.CapBreaksChain` | vecengine/index.go:144-156 | at the cap the event shares a branch with an event off its chain, so no branch table is a table of chains |
| `VecCap.CapHidesFork` | vecengine/index.go:144-156 | a run past the cap: an event sees a validator fork and its vector marks none of that validator's branches |
| `VecEngine.Engine.DropNotFlushed` | vecengine/index.go:88-96 | back to the flushed tables, which are exact |
| `VecIndex.VerdictIsCause` | vecfc/forkless_cause.go:40-82 | on exact tables, fork mark and branch count together decide the forkless-cause relation |
| `VecIndex.Index.ComputeForklessCause` | vecfc/forkless_cause.go:40-82 | the vectors give exactly the forkless-cause relation of the graph |
| `VecIndex.Index.ForklessCauseOf` | vecfc/forkless_cause.go:28-38 | a cached answer always equals recomputation |
| `VecIndex.Index.GetMergedHighestBefore` | vecengine/index.go:257-272 | per validator, whether the event sees it fork and otherwise the highest observed sequence number |
| `VecIndex.Index.CheatersSeenBy` | abft/lachesis.go:56-66 | the reported cheaters are exactly the validators the Atropos sees forking, in validator order |
| `Frames.FrameMonotone` | abft/event_processing.go:166-189 | frames are positive and never decrease along a self-parent chain |
| `Frames.SlotUnique` | vecfc/forkless_cause.go:24-82 | at most one root of a slot is ever seen by anybody |
| `Frames.NoFrameGaps` | abft/event_processing.go:166-189 | below a root every frame has a root in its past |
| `Frames.ViewIsSound` | abft/event_processing.go:149-189 | with few cheaters the roots satisfy all that the election relies on |
| `Frames.OrdersAcceptSame` | abft/event_processing.go:36-63 | runs offered the same events in different parents-first orders accept the same events; `Orderers.ProcessFollowsRun` ties such a run to Process, `Orderers.OrdersStoreSame` adds the stored roots |
| `FrameCalc.CheckIsFrameOk` | abft/event_processing.go:52-63 | the check passes exactly when a quorum vouches for the event on every frame it passes |
| `FrameCalc.BuildPasses` | abft/event_processing.go:17-30 | a frame computed for a draft passes the check of the final event in every graph that extends the one it was built on |
| `Growth.FrameOkStable` | abft/event_processing.go:149-189 | events added later never change whether an event's frame passes the check |
| `Growth.ExactStable` | vecengine/index.go:166-255 | vector tables agree with a graph exactly when they agree with any part of it that holds their events |
| `FrameCheck.ForklessCausedByQuorumOn` | abft/event_processing.go:149-161 | the early break does not change the answer: a quorum of the frame's roots vouches for the event in the whole graph |
| `FrameCheck.CalcFrameIdx` | abft/event_processing.go:166-189 | stops at the first frame without a quorum, or at the claimed frame or the fixed distance, for a stored event as for a draft |
| `Voting.DecisionIsUnanimous` | abft/election/election_math.go:29-113 | once a root decides a subject, every root of its frame votes that way |
| `Voting.UnanimityForever` | abft/election/election_math.go:29-113 | a unanimous frame makes every later frame unanimous |
| `Voting.DecisionsAgree` | abft/election/election_math.go:29-113 | any two decisions on a subject, at any frames, are equal |
| `Voting.NeverAllNo` | abft/election/sort_roots.go:10-25 | some validator is never decided as no |
| `ElectionProof.MajorityIsPure` | abft/election/election_math.go:50-104 | a later-round ballot meets no error and equals the recursive vote |
| `ElectionProof.FirstVoteIsPure` | abft/election/election_math.go:42-50 | a first-round vote equals the recursive vote |
| `ElectionProof.ProcessedKeeps` | abft/election/election_math.go:13-114 | processing a root whose observed roots have voted meets no error and keeps the election's state a function of the processed roots |
| `ElectionProof.OutcomeRight` | abft/election/sort_roots.go:10-25 | no error is reachable, and a decision is the frame's Atropos |
| `ElectionProof.DecidesWhenSettled` | abft/election/sort_roots.go:10-25 | an election has decided x exactly when its processed roots settle a validator as yes, with root x, and all validators before it as no |
| `ElectionProof.AtroposUnique` | abft/election/sort_roots.go:10-25 | a frame has at most one Atropos, whoever decides it |
| `ElectionProof.SameRootsSameDecisions` | abft/event_processing.go:123-146 | replaying the same roots in any order gives the same decided subjects and outcome |
| `ElectionProof.OutcomeLasts` | abft/event_processing.go:123-146 | an outcome reached with some of the roots is the outcome with all of them |
| `Elections.Election.ChooseAtroposOf` | abft/election/sort_roots.go:10-25 | names a root exactly when the first validator not decided no is decided yes for it, is open exactly when that validator has no decision, and fails exactly when all are decided no |
| `Elections.Election.NotDecidedRoots` | abft/election/election.go:87-99 | lists the undecided validators in order; the sanity check never panics |
| `Elections.Election.ObservedRoots` | abft/election/election.go:102-112 | exactly the stored roots of the frame that forkless-cause the given one, once each |
| `Elections.Election.ObservedRootsMap` | abft/election/election.go:114-124 | the same roots by slot, a later one replacing an earlier one |
| `Elections.Election.CountVotes` | abft/election/election_math.go:51-99 | the counting loop computes the majority ballot, with the same errors in the same order |
| `Elections.Election.ProcessRoot` | abft/election/election_math.go:13-114 | the nested loops compute one step of the state machine, errors included |
| `RootStore.Store.AddRoot` | abft/store_roots.go:23-48 | adds one record per newly reached frame; cached frames list the roots of the table, each once if the records are new |
| `RootStore.Store.GetFrameRoots` | abft/store_roots.go:58-93 | each stored root of the frame once, from the cache or from the table |
| `Consensus.ObservedAreSeen` | abft/election/election.go:102-112 | the stored roots that forkless-cause a held event are all the roots it ever sees |
| `Consensus.ChosenIsHeld` | abft/frame_decide.go:11-32 | a decided Atropos is an event the node holds |
| `Consensus.GoingVote` | abft/event_processing.go:66-99 | one more vote keeps the node's invariant and cannot fail |
| `Consensus.GoingDecide` | abft/frame_decide.go:11-32 | applying a decision keeps the invariant: decided frames are consecutive and the next election is empty |
| `Consensus.DecidesExactly` | abft/event_processing.go:66-146 | the stored roots settle the Atropos of every decided frame and, between events, none for the next frame |
| `Consensus.NodesAgree` | abft/event_processing.go:66-146 | two nodes over one graph have applied prefixes of one sequence |
| `Consensus.MoreEventsMoreBlocks` | abft/event_processing.go:66-146 | a settled node that holds all the events of another has decided at least its frames |
| `Consensus.ReplaySame` | abft/event_processing.go:123-146 | a settled replay has the live election's decided subjects |
| `ConsensusGrowth.VoteStable` | abft/election/election_math.go:29-113 | events added later never change a root's vote |
| `ConsensusGrowth.InvGrows` | abft/election/election_math.go:13-114 | an election that is right in a graph is right in every honest graph that extends it |
| `ConsensusGrowth.GoingGrows` | abft/event_processing.go:66-146 | what a node keeps true in its own graph, it keeps in every honest graph that extends it, and it stays settled |
| `Confirmations.Confirmation.DfsSubgraph` | abft/traversal.go:14-37 | the pruned walk terminates, marks exactly the unmarked ancestors and calls back once each, in the order of a function of graph, marks and head |
| `Confirmations.Confirmation.ConfirmEvents` | abft/lachesis.go:40-54 | each call confirms exactly the ancestors of its Atropos that no earlier Atropos had, in recursive depth-first order, the last parent first |
| `Confirmations.WalkIsDfs` | abft/traversal.go:14-37 | the walk with a stack visits what the recursive depth-first walk visits, in its order |
| `Confirmations.MarksLast` | abft/lachesis.go:40-54 | the frame an event is confirmed on depends only on the Atropoi up to it |
| `Confirmations.AppliedPrefix` | abft/lachesis.go:40-54 | more Atropoi only append to the sequence of applied events |
| `Confirmations.AppliedStable` | abft/lachesis.go:40-54 | the sequence of applied events does not change when the graph grows |
| `Orderers.Orderer.OnFrameDecided` | abft/frame_decide.go:11-32 | applies the Atropos once, moves to the next frame and starts an empty election; the epoch is sealed exactly if the application says so of this block |
| `Orderers.Orderer.ProcessKnownRoots` | abft/event_processing.go:125-146 | stops at a decision, or with every stored root above the frame having voted |
| `Orderers.Orderer.BootstrapElection` | abft/event_processing.go:102-121 | terminates; unless sealed, no further frame can be decided from the stored roots |
| `Orderers.Orderer.HandleElection` | abft/event_processing.go:66-99 | after the new root's votes the node is settled again or the epoch is sealed; no error occurs |
| `Orderers.Orderer.Process` | abft/indexed_lachesis.go:69-82 | accepts exactly on held parents and a right frame; a refused event leaves index, roots, election and blocks as they were |
| `Orderers.DecidesAllItCan` | abft/event_processing.go:66-146 | between events an orderer has decided every frame that its stored roots settle, up to the block that seals the epoch, and no other |
| `Orderers.Orderer.Build` | abft/indexed_lachesis.go:53-63 | fails exactly on a missing parent; otherwise the frame is 1 without a self-parent, and else the first from the self-parent's on that no quorum vouches for, at most 100 above it; the orderer stays as it was |
| `FrameCheck.StopsWhereReached` | abft/event_processing.go:166-189 | what calcFrameIdx answers for a draft is the frame it reaches |
| `FrameCheck.FrameReachedOnce` | abft/event_processing.go:166-189 | an event reaches one frame only, so the contract of Build fixes its answer |
| `Orderers.BuiltIsAccepted` | abft/event_processing.go:17-63 | an event with a built frame is accepted by Process, whatever was added to the source since Build |
| `Orderers.ProcessFollowsRun` | abft/event_processing.go:36-63 | a run accepts the next event exactly when Process answers Ok on the accepted ones |
| `Orderers.OrdersStoreSame` | abft/event_processing.go:36-63 | offered the same events in different parents-first orders, nodes store the same roots |
| `Orderers.Orderer.Bootstrap` | abft/bootstrap.go:35-55 | a restart from the stores decides nothing new and restores the same decided subjects |
| `Orderers.OrderersAgree` | abft/event_processing.go:36-146 | two orderers whose sources lie in one honest graph agree on the Atropoi, on the sequence of applied events and on the frame of each; with equal events they have equal root tables; with one application they seal the epoch at the same block |
| `Orderers.SameEventsSameState` | abft/event_processing.go:36-146 | orderers that hold the same events, of one application or unsealed, have the same blocks, roots, applied events and marks, and while unsealed the same decided subjects |
| `EventsBuffers.EventsBuffer.PushEvent` | gossip/dagordering/event_buffer.go:57-77 | true exactly when the event becomes connected; an incomplete event is buffered, and only what exceeds the limit is spilled; case by case what is released, with which error, and which callbacks ran; between calls nothing buffered is complete and no event was processed twice |
| `EventsBuffers.EventsBuffer.PushItem` | gossip/dagordering/event_buffer.go:79-120 | the recursive cascade terminates, never calls Process without all parents, is true exactly when the event becomes connected, and leaves no event newly overdue |
| `EventsBuffers.EventsBuffer.GetIncompleteEventsList` | gossip/dagordering/event_buffer.go:122-132 | lists exactly the buffered instances, the least recent first |
| `EventsBuffers.EventsBuffer.ProcessCompleteEvent` | gossip/dagordering/event_buffer.go:146-164 | calls Check and then Process; connects the event exactly when both succeed, and otherwise records the error of the one that failed |
| `EventsBuffers.EventsBuffer.SpillIncompletes` | gossip/dagordering/event_buffer.go:166-214 | evicts nothing within the limit and otherwise stops as soon as the limit holds; unimportant events go before important ones, and of equal importance older ones before more recent ones |
| `EventsBuffers.EventsBuffer.Clear` | gossip/dagordering/event_buffer.go:234-238 | empties the buffer, releasing what was in it |
| `EventsBuffers.Conservation` | gossip/dagordering/event_buffer.go:216-227 | every pushed instance is buffered and unreleased, or released exactly once |
| `EventsBuffers.BufferedLacksParent` | gossip/dagordering/event_buffer.go:79-120 | every buffered event lacks a parent |
| `KeyOrder.PrefixConvex` | kvdb/flushable/flushable.go:320-326 | keys between prefix+start and a key with the prefix have the prefix, so iteration may stop at the first without |
| `Flushables.Flushable.Put` | kvdb/flushable/flushable.go:69-83 | refuses nil, otherwise readers see the pair |
| `Flushables.Flushable.Delete` | kvdb/flushable/flushable.go:122-133 | readers no longer see the key |
| `Flushables.Flushable.Has` | kvdb/flushable/flushable.go:86-100 | answers from the overlay; an error when closed |
| `Flushables.Flushable.Get` | kvdb/flushable/flushable.go:103-119 | answers from the overlay; an error when closed |
| `Flushables.Flushable.DropNotFlushed` | kvdb/flushable/flushable.go:137-147 | readers see the database again |
| `Flushables.Flushable.Flush` | kvdb/flushable/flushable.go:197-231 | succeeds exactly on an open store whose database serves every operation on the batches; wherever it fails readers see what they saw and the database has the batches written before; on success the database is what they saw and nothing is pending |
| `Flushables.CacheBatch.Commit` | kvdb/flushable/flushable.go:502-516 | the cache reads as if the collected writes had been applied in order |
| `FlushIterators.FlushIterator.constructor` | kvdb/flushable/flushable.go:445-465 | what is to come is the overlay's keys with the prefix from prefix+start on |
| `FlushIterators.NewIterator` | kvdb/flushable/flushable.go:445-465 | an error exactly on a closed store, otherwise an iterator over the overlay's keys in range |
| `FlushIterators.FlushIterator.FromTree` | kvdb/flushable/flushable.go:328-354 | the cache's turn yields the least key to come or passes over deletions without losing a key |
| `FlushIterators.FlushIterator.FromParent` | kvdb/flushable/flushable.go:356-371 | the database's turn yields the least key to come or skips one already hidden |
| `FlushIterators.FlushIterator.Next` | kvdb/flushable/flushable.go:312-375 | the least pair of the overlay still to come; false exactly when there is none |
| `FlushIterators.Drain` | kvdb/flushable/flushable.go:300-375 | draining yields exactly the overlay's pairs in range, strictly ascending |
| `SyncedPools.CheckDBsSynced` | kvdb/flushable/synced_pool.go:245-278 | the verdict is a property of the marks alone, whatever the order of visiting; the result is the common mark, or the given one if there is no database |
| `SyncedPools.SyncedPool.MarkAll` | kvdb/flushable/synced_pool.go:182-192 | cut anywhere, some databases carry the mark and the rest are untouched; all carry it exactly when there is a write for each |
| `SyncedPools.SyncedPool.Flush` | kvdb/flushable/synced_pool.go:181-215 | cut after any number of writes, CheckDBsSynced accepts only all-old or all-new contents and readers of the wrappers see what they saw; it completes exactly when the writes cover two marks a database and every pending pair, and is then accepted with nothing pending |

## Left out

- VecEngine.Engine.FillGlobalBranchID: requires that a self-parent has a branch; the source stops the program in GetEventBranchID without one (vecengine/index.go:130).
- VecEngine.Engine.Add: requires a stored self-parent and answers an error for any other missing parent; the source stops the program in GetEventBranchID for every missing parent (vecengine/index.go:130 and 179), before its own error return.
- VecEngine.Engine.DropNotFlushed: the drop that happens only when something is pending, and the lazy reload of the branch table, are one assignment.
- Orderers.Orderer.Process: requires a stored self-parent, where the source stops the program, and an event below the branch cap, past which the index is not exact.
- Orderers.Orderer.Build: works on a copy of the index with an empty cache instead of adding the draft to the index and dropping it; the draft is taken to have a fresh temporary ID, to fit its parents and to be below the branch cap.
- Orderers.Orderer.OnFrameDecided: records that the epoch is sealed, and the orderer stops; the next epoch is a new orderer, and new validators and dropping the old epoch's tables are not modelled.
- Orderers.Orderer.Bootstrap: keeps the index and the caches of the running orderer instead of loading them again.
- The event source of an orderer is fixed in advance; that it grows in the program is covered by the sources being arbitrary parts of one graph.
- The application's block callbacks: sealing is an arbitrary function of frame and Atropos, and confirmation always runs.
- Caches of vectors and of branch IDs; only the forkless-cause and the frame-roots caches are modelled.
- The order in which a database lists the roots of a frame is arbitrary here rather than the key order.
- 64-bit wrap-around of cache weights and of the size estimate of the write cache.
- RootStore.Store.AddRoot: that a cached frame lists each root once is stated only for records not stored before; storing them again lists them twice, as in the source.
- EventsBuffers.EventsBuffer.PushEvent: takes events to become connected only through the buffer's own Process callback, and one more event above the limit to fit in 31 bits.
- EventsBuffers.EventsBuffer.PushItem: the error values of the callbacks are two constants, and the err and released fields of an instance are kept in a map and a set of the buffer instead of in the instance; the Released callback is taken to be set.
- Flushables.Flushable.Flush: the database fails at most once, after a given number of batch operations, and a failed batch write leaves a prefix of its pairs of at most a given length; reads do not fail.
- FlushIterators.FlushIterator.Next: iterating while the store changes, and the red-black tree's node links (the tree is its keys in order).
- SyncedPools.SyncedPool.Flush: queued drops are left out, and the application is taken not to write the key of the mark.
- Locks, goroutines, the event processor, the fetcher and the streamers.
- Serialisation, hashing, hexadecimal formatting, database backends and producers.
