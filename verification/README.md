# Ryther core, verified model

A Dafny model of the parts of the Ryther node that carry its guarantees, with proofs over every input, every run or
every reachable state:

- **Consensus.** The DAG store and its reachability search, stake bookkeeping and quorums, the stake-weighted leader
  election, the commit rule, and agreement of any two nodes.
- **Authenticated state.** The Jellyfish Merkle tree on its content-addressed node table: canonical roots, exact proofs,
  readable history.
- **Execution.** Version chains, validation, the virtual machine's accounting, the batch executor with its retry loop,
  finalize, and whole runs of blocks against serial execution on a plain map.
- **Supporting structures.** The LRU cache, the transaction pool, the Lamport clock under all interleavings.

The main results:

1. For any set of events with unique ids, all nodes that receive any of them, in any order and advancing whenever they
   like, decide histories one of which extends the other, if and only if wherever the commit rule can lead at most one
   event is a candidate (`Agreement.AgreementExactly`). Without equivocation they agree for every validator set
   (`Agreement.Agree`). Equivocation by anyone but an elected leader is harmless (`Candidates.OnlyLeadersMatter`); a
   leader with two supported events splits the network (`Equivocation.EquivocationSplits`). Advancing along the way
   has its own exact condition (`Agreement.IncrementalExactly`).
2. From empty version chains a batch of any transactions aborts nothing, so the retry loop never runs twice, and its
   results are those of one in-order pass (`Executor.ParallelExecutor.ExecuteBatch`). Executing and finalizing is
   serial if and only if each transaction settles in the serial state it meets (`Executor.BatchSerialExactly`), which
   can be told before executing it (`Serial.SettledExactly`). Every run of such blocks leaves the base state of serial
   execution, and a tree that mirrors that state (`Blocks.RunBlocks`); the state root is then equal for two nodes
   exactly when their states are (`Blocks.StateRoot`).
3. The tree's root is a function of the final map alone, found by bisecting the numbers that the paths spell
   (`Bisection.RootBisects`), old roots stay readable, and an inclusion proof checks exactly for the entries of the map,
   whatever siblings are offered (`JmtRuns`).
4. A transaction that goes through changes the sum of all balances by exactly a closed-form drift, for all amounts and
   every overlap of accounts and in every state (`Conservation.SupplyMoves`). The drift is not always zero among three
   separate accounts: a gas limit below the gas used and a value above one limb both bring money into being; the exact
   condition is `Conservation.CallConserves`, over whole runs `Conservation.RunConserves`.
5. The slot vector, links, free list and key map of the LRU cache stand for one recency list over any run, a larger
   cache always contains a smaller one (`Lru`, `LruList`), and what is held, in which order, and what is evicted follow
   from the trace of operations alone (`LruTrace`).
6. Over any serial run a stored nonce counts the sender's transactions that went through, so that none goes through
   twice within 2^64 transactions (`Accounts.NonceCounts`, `Accounts.NonceUsedOnce`).

## How to read the model

- `u64` arithmetic is written out as arithmetic modulo 2^64 (`Common.Wrap`), which is what a release build does.
- SHA-256 is a parameter `sha`. Where collision-freeness is needed it is assumed only of the finite set of inputs that
  the run at hand hashes, never of all inputs.
- Rust's `binary_search_by` may return any matching position; it is a parameter `search` with exactly that contract, so
  theorems hold for every implementation of it.
- Iteration over a hash map is an arbitrary choice in the model; results that depend on it say so, the others are
  proved for every order.
- Objects that the code updates in place are classes; each method is tied to a function of the old state, and the
  theorems are about that function.
- Only the lowest limb of a gas price is charged and refunded, as in the code; the index of the pool orders whole prices.
- Where a documented property does not hold for all inputs, the model keeps the code as it is and states the exact
  condition: quorum intersection (`Validators.QuorumIntersectionExact`; the method `quorum_intersection_guaranteed`
  returns a constant), aborting as deletion (`Versions.AbortIsDelete`), rewriting a key within one transaction
  (`Versions.RewriteExact`), subtraction (`Words.SubExact`), the tree following finalize (`Authenticated.FinalizeAgrees`),
  serial execution (`Serial.SerialExactly`), agreement (`Agreement.AgreementExactly`), stake weighting
  (`Leader.ExactWeighting`), conservation (`Conservation.CallConserves`), the price order (`Mempool.OrderIsNumeric`),
  the clock near the top of its range (`Lamport.TimestampsIncrease`), a cache holding as many keys as fit
  (`LruTrace.FilledStep`).

## Model

| member | source | states |
|---|---|---|
| `Validators.TotalAfterAdd` | src/types/validator.rs:58-72 | setting one validator's stake changes the sum of all stakes by the difference to the stake it replaces |
| `Validators.TotalAfterRemove` | src/types/validator.rs:74-82 | removing a validator lowers the sum of all stakes by that validator's stake |
| `Validators.ValidatorSet.Add` | src/types/validator.rs:58-72 | a positive stake is set and a zero stake ignored; the cached total stays the wrapped sum of all stakes, every stake positive |
| `Validators.ValidatorSet.Remove` | src/types/validator.rs:74-82 | returns and deletes the stake if present; the cached total stays the wrapped sum |
| `Validators.ValidatorSet.CachedTotal` | src/types/validator.rs:99-101 | whenever the sum of stakes fits 64 bits the cached total is that sum |
| `Validators.StakeFor` | src/types/validator.rs:148-150 | the loop returns the wrapped sum of the voters' stakes; ids outside the set weigh nothing |
| `Validators.HasQuorum` | src/types/validator.rs:142-145 | true exactly when the voters' wrapped stake reaches the threshold: while twice the total fits 64 bits, exactly when they hold more than two thirds of the stake |
| `Validators.QuorumIsTwoThirds` | src/types/validator.rs:131-145 | while twice the total fits 64 bits, a voter set is a quorum if and only if three times its stake exceeds twice the total |
| `Validators.FaultIsThird` | src/types/validator.rs:137-139 | the fault threshold is the greatest stake three times which does not exceed the total |
| `Validators.SumAtMostTotal` | src/types/validator.rs:148-150 | no set of voters outweighs the whole validator set |
| `Validators.SumUnion` | src/types/validator.rs:152-156 | inclusion and exclusion for stakes: two voter sets weigh together what their union and their intersection weigh |
| `Validators.QuorumMonotone` | src/types/validator.rs:142-145 | adding voters to a quorum leaves a quorum |
| `Validators.QuorumIntersection` | src/types/validator.rs:152-161 | when twice the total fits 64 bits, any two quorums share strictly more stake than the fault threshold |
| `Validators.OverflowSplitsQuorums` | src/types/validator.rs:131-134 | for every total from 2^63 on, two validators splitting it are two disjoint quorums |
| `Validators.QuorumIntersectionExact` | src/types/validator.rs:126-161 | for sums of stakes that fit 64 bits: every validator set of a given sum has intersecting quorums if and only if the sum is below 2^63; the condition is on the sum, not on the cached total |
| `Validators.CachedTotalHidesSum` | src/types/validator.rs:131-145 | for every cached total but the largest, a set of two whose sum overflows has that cached total and two disjoint quorums |
| `Validators.CachedTotalSaysNothing` | src/types/validator.rs:126-161 | the cached total alone guarantees nothing: for each of its values some set has that cached total and disjoint quorums |
| `Validators.OverflowLosesQuorum` | src/types/validator.rs:131-145 | once the sum overflows, one more voter can undo a quorum, for every cached total but zero |
| `Validators.QuorumTracker.AddSupport` | src/types/validator.rs:195-199 | records the supporter and reports true exactly when this call reached the quorum |
| `Validators.TrackAll` | src/types/validator.rs:183-204 | over any sequence of supports exactly one call reports the quorum if the supporters form one, and none otherwise |
| `Leader.Iterate` | src/consensus/leader.rs:28-31 | an arbitrary iteration of the map lists every validator once |
| `Leader.CanonicalLists` | src/consensus/leader.rs:28-32 | the canonical listing is sorted by id and lists exactly the validator set |
| `Leader.IterationOrderIrrelevant` | src/consensus/leader.rs:28-32 | sorting any iteration of the hash map gives the same listing |
| `Leader.ScanIsSelect` | src/consensus/leader.rs:46-55 | short of overflow the running sum selects the validator whose stretch of the stake line covers the target |
| `Leader.ScanFinds` | src/consensus/leader.rs:46-55 | the running sum, taken modulo 2^64, ends at the wrapped total, so every target below that is met |
| `Leader.Scan` | src/consensus/leader.rs:46-55 | the loop with its wrapping running sum selects as specified, by stretches when the stakes fit 64 bits |
| `Leader.WeightIsTotal` | src/consensus/leader.rs:46-55 | the stakes of any listing add up to the total stake |
| `Leader.ElectLeader` | src/consensus/leader.rs:18-56 | for every set the code can elect from, overflowing sums included, returns the elected member, and none only for an empty set; while the stakes fit 64 bits it is the one whose stretch of the stake line covers the drawn number; a zero total of a non-empty set is a division by zero |
| `Leader.ElectsMember` | src/consensus/leader.rs:18-56 | a member is elected if and only if the wrapped total is not zero, for every round and seed |
| `Leader.Draw` | src/consensus/leader.rs:34-44 | the hashed input is eight bytes that spell the round little-endian and then the seed; the drawn number is the remainder of the first eight bytes of the digest, read little-endian, on division by the total |
| `Leader.LastByteHighest` | src/consensus/leader.rs:40-41 | reading little-endian, a byte appended at the end is the most significant one |
| `Leader.LeRoundTrip` | src/consensus/leader.rs:34-36 | reading back the little-endian bytes of a number that fits gives the number |
| `Leader.InputDetermines` | src/consensus/leader.rs:34-37 | different rounds or seeds hash different inputs |
| `Leader.ListedEarlier` | src/consensus/leader.rs:27-31 | in the sorted listing exactly the validators whose id is smaller byte for byte stand before a validator |
| `Leader.ElectedExactly` | src/consensus/leader.rs:43-52 | while the stakes fit 64 bits, a validator is elected if and only if the drawn number is at least the stake of all validators with smaller ids, and below that plus its own stake |
| `Leader.ExactWeighting` | src/consensus/leader.rs:43-55 | each validator is elected by exactly as many of the targets below the cached total as it has stake, if and only if the sum of stakes fits 64 bits |
| `DagModel.InsertHolds` | src/dag/store.rs:38-66 | without equivocation, all five indices keep describing exactly the stored events after an insertion, re-insertions included |
| `DagModel.RoundEventsHeld` | src/dag/store.rs:84-93 | the events listed for a round are exactly the stored events of that round |
| `DagModel.InsertKeeps` | src/dag/store.rs:38-66 | equivocation or not, the store keeps exactly the inserted events, and each lookup by creator and round leads to one of them |
| `DagModel.EventAtHeld` | src/dag/store.rs:96-100 | the lookup by creator and round finds an event of that creator and round, and none only if there is none |
| `DagModel.RoundListsArrivals` | src/dag/store.rs:50-53 | a round lists its events in the order of arrival, one that came twice twice |
| `DagModel.LastArrivalFound` | src/dag/store.rs:47-49 | of several events of one creator and round the lookup finds the one that came last |
| `DagModel.DagStore.EventsAtRound` | src/dag/store.rs:84-93 | returns the stored events of the round index in its order and with its repetitions |
| `DagModel.DagStore.Insert` | src/dag/store.rs:38-66 | updates the five indices as the code does, and keeps them describing the stored set when nobody equivocates |
| `DagModel.ClosedContains` | src/dag/store.rs:115-134 | a set closed under stored strong parents contains every path that starts in it |
| `DagModel.DagStore.CanReach` | src/dag/store.rs:109-137 | the breadth-first search terminates on every finite store and is true exactly when a strong-parent path exists |
| `DagModel.ReachesMonotone` | src/dag/store.rs:109-137 | more events keep every path |
| `Commit.FirstSupport` | src/consensus/commit.rs:52-61 | the result is the least round in range with quorum support, and none only if there is no such round |
| `Commit.CommitDetector.CheckQuorumSupport` | src/consensus/commit.rs:68-90 | supported exactly when the creators of that round's events that reach the anchor form a quorum |
| `Commit.CommitDetector.CheckCommit` | src/consensus/commit.rs:39-65 | the decision for a round: leader, anchor and least supporting round from the next on, where the round after the last is zero |
| `Commit.CommitDetector.TryAdvance` | src/consensus/commit.rs:114-131 | commits round after round until one cannot be decided, and ends in the state those commits lead to |
| `Candidates.SupportKept` | src/consensus/commit.rs:68-90 | support in a store depends only on the set of events it keeps |
| `Candidates.SupportMonotone` | src/consensus/commit.rs:68-90 | quorum support survives any growth of the set of events |
| `Candidates.AdvancePath` | src/consensus/commit.rs:114-131 | whatever a detector decides is a path of candidates: each the elected leader's event of its round with a quorum reaching it later |
| `Candidates.AdvanceFollows` | src/consensus/commit.rs:114-131 | a detector whose lookups find a path of candidates decides that path and goes on from its end |
| `Candidates.CheckMonotone` | src/consensus/commit.rs:39-65 | a decision on a candidate that shares its slot with no other event stays the same as the DAG grows, and its supporting round can only get earlier |
| `Candidates.AdvanceInStages` | src/consensus/commit.rs:114-131 | then advancing on a DAG and on a larger one decides what advancing once on the larger one decides, with the same final seed |
| `Candidates.PathsCompare` | src/consensus/commit.rs:114-131 | where at most one event is a candidate, two paths of candidates never part |
| `Candidates.OnlyLeadersMatter` | src/consensus/commit.rs:46-50 | equivocation can matter only where an elected leader has two events for the round it leads |
| `Candidates.NoEquivocationIsFirm` | src/consensus/commit.rs:39-65 | without equivocation every candidate is its creator's only event of its round |
| `Candidates.FirmIsUnambiguous` | src/consensus/commit.rs:39-65 | where every candidate is its creator's only event of its round, at most one event is a candidate |
| `Candidates.LeadsCompare` | src/consensus/commit.rs:39-65 | two sequences of leaders' events never part where every leader has at most one event for its round |
| `Agreement.RunHolds` | src/dag/store.rs:38-66 | after any run without equivocation all indices of a node's store describe exactly the events delivered to it |
| `Agreement.RunKeeps` | src/dag/store.rs:38-66 | after any run the store keeps exactly the events delivered to it |
| `Agreement.RunPath` | src/consensus/commit.rs:93-131 | over any interleaving of deliveries and advances, a node's decisions and state are those of a path of candidates |
| `Agreement.DecidesPath` | src/dag/store.rs:47-48 | every path of candidates is what some node that receives these events decides first |
| `Agreement.AgreementExactly` | src/consensus/commit.rs:39-131 | for any set of events with unique ids: all nodes that receive any of them in any order decide comparable histories, if and only if wherever candidates lead at most one event is a candidate |
| `Agreement.RunLeads` | src/consensus/commit.rs:93-131 | for every validator set, whatever a node decides is a sequence of leaders' events |
| `Agreement.LeadersAgree` | src/consensus/commit.rs:39-131 | for every validator set, overflowing stakes included, nodes agree as long as each leader has at most one event for the round it leads |
| `Agreement.Agree` | src/consensus/commit.rs:39-131 | without equivocation any two nodes with the same validators, whichever they are, and the same initial seed decide histories one of which is a prefix of the other |
| `Agreement.RunCatchesUp` | src/consensus/commit.rs:93-131 | what a node has decided plus what it could decide now is what a new detector would decide now, as long as candidates share no slot |
| `Agreement.Incremental` | src/consensus/commit.rs:93-131 | then repeated advancing while the DAG grows yields the rounds, anchors, leaders and final seed of one call at the end |
| `Agreement.IncrementalExactly` | src/consensus/commit.rs:93-131 | that holds for every run on a set of events if and only if every candidate is its creator's only event of its round |
| `Agreement.HistoryBelow` | src/consensus/commit.rs:93-131 | then a node's decisions are a prefix of what any larger set of events decides |
| `Agreement.RunCounts` | src/consensus/commit.rs:93-99 | in every run the last committed round is the number of commits |
| `Agreement.ContiguousRounds` | src/consensus/commit.rs:114-131 | in every run committed rounds are 1, 2, 3 and so on without gaps |
| `Agreement.LeastSupport` | src/consensus/commit.rs:52-61 | each commit's supporting round has a quorum, and no round between has one |
| `Equivocation.EquivocationSplits` | src/dag/store.rs:48-49 | a leader with two events for round 1, stored in opposite orders, makes two nodes with the same events decide different anchors |
| `Words.ValInjective` | src/types/mod.rs:237 | different words stand for different numbers |
| `Words.AddExact` | src/types/mod.rs:264-276 | addition is exact modulo 2^256, and exact when the sum fits |
| `Words.AddLoop` | src/types/mod.rs:264-276 | the carry loop with its two overflow flags computes that sum |
| `Words.SubExact` | src/evm/vm.rs:443-452 | for a minuend not below the subtrahend, the virtual machine's subtraction is exact if and only if the subtrahend is one limb and the borrow can be paid by the second limb |
| `Words.Compare` | src/evm/vm.rs:454-464 | the limb loop compares numerically |
| `Words.BytesRoundTrip` | src/types/mod.rs:247-262 | reading back the big-endian bytes of a word gives the word |
| `Words.BytesSpell` | src/types/mod.rs:247-253 | the 32 bytes of a word spell its number, most significant byte first |
| `Words.KeyBytesSpell` | src/types/mod.rs:211-216 | the bytes of a state key are the address and then the slot, most significant byte first |
| `Words.KeyBytesInjective` | src/types/mod.rs:211-216 | different state keys have different bytes |
| `JmtTree.BitsDetermine` | src/storage/jmt.rs:113-117 | two paths that agree on all 256 bits are equal |
| `JmtTree.BitsOrder` | src/storage/jmt.rs:113-117 | of two paths the one with the zero at their first differing bit comes first byte for byte |
| `JmtTree.LeavesAscend` | src/storage/jmt.rs:113-117 | left to right the leaves of a map's tree are its keys in ascending byte order, so that at every fork the whole left side comes before the whole right side |
| `JmtTree.PutCanon` | src/storage/jmt.rs:130-275 | inserting into the canonical tree of a map gives the canonical tree of the updated map |
| `JmtTree.GetCanon` | src/storage/jmt.rs:284-319 | the canonical tree answers every key as the map does |
| `JmtTree.TipsAreEntries` | src/storage/jmt.rs:284-319 | a leaf anywhere in the canonical tree is an entry of the map |
| `Jmt.DomainSeparation` | src/storage/jmt.rs:39-62 | the leaf and internal markers turn collision-freeness of the hash into different addresses for different nodes, none of them the empty hash |
| `Jmt.PutRefines` | src/storage/jmt.rs:130-275 | insertion on the node table does what insertion on the tree does, stores every node of the new tree and loses none |
| `Jmt.GetRefines` | src/storage/jmt.rs:284-319 | lookup on the node table answers as the stored tree does |
| `Jmt.VerifyInclusion` | src/storage/jmt.rs:396-423 | the bottom-up loop accepts exactly when the siblings fold to the root |
| `Jmt.ProofComplete` | src/storage/jmt.rs:336-367 | the collected proof of a present key folds to the root |
| `Jmt.ProofSound` | src/storage/jmt.rs:396-423 | any siblings whatsoever that fold to the root exhibit a leaf of the tree |
| `JmtRuns.RunStores` | src/storage/jmt.rs:120-275 | after any insertions the table stores every tree of the run and the root is the address of the canonical tree |
| `JmtRuns.CanonicalRoot` | src/storage/jmt.rs:120-275 | the root after any sequence of puts is a function of the final map alone |
| `Bisection.BitHalves` | src/storage/jmt.rs:113-117 | a bit tells in which half of its interval the number that a path spells lies |
| `Bisection.RootBisects` | src/storage/jmt.rs:39-275 | after any run of insertions the root is found by bisecting the numbers that the paths spell: 32 zero bytes for an empty interval, the hash of a zero byte, path and value for a single entry, and else the hash of a one byte and the roots of the lower and the upper half |
| `JmtRuns.HistoryReadable` | src/storage/jmt.rs:278-319 | every root of the run still reads back the map of its time from the final table |
| `JmtRuns.NoForgery` | src/storage/jmt.rs:396-423 | whatever siblings are offered, a proof that checks against the root proves an entry of the map |
| `JmtRuns.ExactProof` | src/storage/jmt.rs:322-423 | the generated proof of a key checks for a value if and only if the lookup returns that value |
| `JmtRuns.RootBindsMap` | src/storage/jmt.rs:120-275 | two runs have the same root if and only if they end in the same map |
| `JmtRuns.JellyfishMerkleTree.PutRecursive` | src/storage/jmt.rs:130-275 | the recursive insertion updates the table and returns the new subtree hash as specified, for any table |
| `JmtRuns.JellyfishMerkleTree.Put` | src/storage/jmt.rs:120-128 | appends the value hash at the key's path to the run of insertions whose root `Bisection.RootBisects` gives, and counts the version |
| `JmtRuns.WhatIsHashed` | src/storage/jmt.rs:108-128 | the path is the hash of the address and the 32 bytes of the slot, the value hash that of the value's 32 bytes, all most significant byte first |
| `JmtRuns.JellyfishMerkleTree.GetReadsLastPut` | src/storage/jmt.rs:278-281 | lookup answers with the last value hash put for the key, and nothing if none was |
| `Versions.AddDescends` | src/types/state.rs:58-68 | insertion keeps descending order, wherever among equal sequence numbers the search lands |
| `Versions.AddHolds` | src/types/state.rs:58-68 | insertion adds the version and loses none |
| `Versions.ReadForGreatest` | src/types/state.rs:72-84 | a read returns the greatest visible sequence number below the reader, and nothing only if none is visible |
| `Versions.OwnWritesUnseen` | src/types/state.rs:72-84 | no transaction sees what is written at its own or a later sequence number |
| `Versions.MarkAt` | src/types/state.rs:87-104 | marking changes the status of the first match and nothing else |
| `Versions.MarkPoint` | src/types/state.rs:87-104 | marking changes the status of the first version with the number and nothing else |
| `Versions.GcUnseen` | src/types/state.rs:107-109 | dropping aborted versions changes no read |
| `Versions.GcKeeps` | src/types/state.rs:107-109 | exactly the aborted versions are dropped |
| `Versions.AbortIsDelete` | src/types/state.rs:97-104 | aborting reads like deleting for every reader if and only if at most the first version at that number is live |
| `Versions.FrontIsLater` | src/types/state.rs:58-68 | after several writes at one number they sit in front, headed by the only one or by one after the first |
| `Versions.RewriteExact` | src/types/state.rs:58-84 | the last of several writes at one number is sure to be read if and only if all writes after the first agree with it |
| `Versions.VersionChain.AddVersion` | src/types/state.rs:58-68 | inserts as specified and keeps the chain descending |
| `Versions.VersionChain.Read` | src/types/state.rs:72-84 | the scan computes the specified read |
| `Versions.VersionChain.SetStatus` | src/types/state.rs:87-104 | flips the first match in place |
| `Versions.VersionChain.GcAborted` | src/types/state.rs:107-109 | filters the aborted versions in place |
| `Conflict.ConflictDetector.HasConflict` | src/execution/conflict.rs:32-44 | true exactly when some read is older than the recorded last writer below the transaction |
| `Conflict.ConflictDetector.RecordCommit` | src/execution/conflict.rs:47-51 | the transaction becomes the last writer of its keys |
| `Conflict.ValidateBatch` | src/execution/conflict.rs:77-96 | the loop over the sorted results returns the specified verdict |
| `Conflict.StaleMeansOverwritten` | src/execution/conflict.rs:32-44 | one last-writer entry per key detects exactly the overwritten reads |
| `Conflict.ValidateKeeps` | src/execution/conflict.rs:77-96 | over sorted results the table is the last committed writer per key, the verdict a partition, and exactly the overwritten are aborted |
| `Conflict.ValidationMeans` | src/execution/conflict.rs:77-96 | a result is aborted if and only if a committed earlier one overwrote a read of it; committed and aborted partition the batch |
| `Conflict.ArrivalOrderIrrelevant` | src/execution/conflict.rs:82-84 | the arrival order of the results does not matter |
| `Conflict.VerdictUnique` | src/execution/conflict.rs:77-96 | no other split of the batch satisfies that condition |
| `Mvcc.FinalBaseLookup` | src/execution/mvcc.rs:175-195 | finalize gives each key what a reader after every transaction sees |
| `Mvcc.ReadMeans` | src/execution/mvcc.rs:78-89 | a read gives the newest version that is older than the reader and not aborted, with its number, and if there is none the base state's value with number zero |
| `Mvcc.MultiVersionState.Write` | src/execution/mvcc.rs:110-121 | adds a pending version to the key's chain |
| `Mvcc.MultiVersionState.WriteTracked` | src/execution/mvcc.rs:124-133 | the same, recorded in the write set |
| `Mvcc.MultiVersionState.MarkWriteSet` | src/execution/mvcc.rs:140-165 | in any key order, marks exactly the chains of the write set |
| `Mvcc.MultiVersionState.Finalize` | src/execution/mvcc.rs:175-199 | in any key order, ends in the final base state, empty chains, and one tree insertion per flushed key |
| `Authenticated.FinalizeAgrees` | src/execution/mvcc.rs:175-199 | from agreement of tree and base state, finalize keeps agreement if and only if it deletes no key of the base state |
| `Authenticated.RunAgreesExactly` | src/execution/mvcc.rs:110-199 | over any run of writes, deletions, marks and finalizes, tree and base state agree after every step if and only if no finalize deletes a key of the base state |
| `Authenticated.ValuesDeleteNothing` | src/execution/mvcc.rs:110-199 | writes that carry values never make a finalize delete |
| `Authenticated.AuthenticatedState` | src/execution/mvcc.rs:175-199 | after any such run the tree answers the hash of the base value for every key, and nothing exactly for absent keys |
| `Vm.OwnWritesInvisible` | src/evm/vm.rs:376-399 | a transaction's own writes never change what it reads |
| `Vm.ExecuteBody` | src/evm/vm.rs:260-332 | a call or creation makes the specified writes and reads and uses the specified gas |
| `Vm.Settle` | src/evm/vm.rs:197-250 | debit, nonce, body, refund and fee are written in that order from what the transaction saw |
| `Vm.ExecuteTx` | src/evm/vm.rs:129-258 | result, recorded reads and writes, and new chains are those of the specified outcome, error cases included; what that outcome is in slots and numbers is stated by the members of `Accounts` |
| `Serial.ExecuteSame` | src/evm/vm.rs:169-258 | the outcome depends on the values seen, not on their versions |
| `Serial.PassOrdered` | src/execution/executor.rs:127-138 | an in-order pass keeps every chain descending and live at the head, whatever the transactions do |
| `Serial.ReadsAreSeen` | src/execution/mvcc.rs:92-101 | every recorded read is the value and version the transaction saw |
| `Serial.SenderValues` | src/evm/vm.rs:197-250 | the values written to the sender's balance, in order: debit, the credit of a self-payment, refund, the fee of a mining sender |
| `Serial.SettledExactly` | src/evm/vm.rs:169-287 | all writes to a key after its first agree if and only if the transaction fails a check, or a mining sender's refund equals its credit and a self-payer's credit equals its refund: a condition on the state before execution |
| `Serial.PassSyncs` | src/execution/executor.rs:127-138 | when each transaction settles its keys where serial execution runs it, the chains of an in-order pass stand for the serial state |
| `Serial.PassIsSerial` | src/execution/executor.rs:127-138 | then each result equals the serial one up to read versions |
| `Serial.NothingOverwritten` | src/execution/executor.rs:87-89 | in an in-order pass no transaction overwrites a read of another |
| `Serial.PassCommits` | src/execution/executor.rs:87-111 | validation of an in-order pass of any transactions aborts nothing |
| `Serial.MarkSyncs` | src/execution/executor.rs:91-96 | committing write sets changes no value |
| `Serial.FinalizeIsSerial` | src/execution/mvcc.rs:175-199 | chains in step with a serial state finalize to exactly that state |
| `Serial.SerialExactly` | src/execution/executor.rs:127-138 | finalizing after any number of the transactions gives the serial state, for every admissible search, if and only if each transaction settles in the serial state it meets, a condition on that state and the transaction |
| `TameTransactions.AtMostTwice` | src/evm/vm.rs:197-250 | a sender who neither mines the block nor pays itself writes each key at most twice |
| `TameTransactions.UntangledIsTame` | src/evm/vm.rs:197-250 | that condition on addresses makes a transaction settle whatever it sees |
| `TameTransactions.TameSettles` | src/evm/vm.rs:197-250 | such transactions settle wherever serial execution runs them |
| `TameTransactions.SelfPaymentShows` | src/evm/vm.rs:197-250 | after a self-payment a later reader is sure to see the refunded balance if and only if it equals the credited one |
| `Executor.SortedKeys` | src/execution/executor.rs:71-72 | the pending list is the sequence numbers in ascending order, each once |
| `Executor.PickLists` | src/execution/executor.rs:65-72 | executing the sorted sequence numbers lists the batch in sequence order, the last transaction per number winning |
| `Executor.MapOfLast` | src/execution/executor.rs:65-68 | of several transactions with one sequence number the last counts |
| `Executor.ParallelExecutor.ExecuteParallel` | src/execution/executor.rs:127-138 | executes the listed transactions one after the other on the shared state |
| `Executor.ParallelExecutor.MarkCommitted` | src/execution/executor.rs:91-96 | marks the write set of every committed number that has a result |
| `Executor.ParallelExecutor.DropAborted` | src/execution/executor.rs:98-104 | forgets exactly the aborted results and marks each aborted write set once |
| `Executor.CommitsListed` | src/execution/executor.rs:91-96 | committing marks exactly the first version of each listed number in the chains of its write set |
| `Executor.AbortsListed` | src/execution/executor.rs:98-104 | aborting does the same, and values, numbers and all other versions stay |
| `Executor.CollectLast` | src/execution/executor.rs:82-85 | the last result under a sequence number replaces all before it |
| `Executor.CollectOthers` | src/execution/executor.rs:82-85 | results of other sequence numbers stay |
| `Executor.ParallelExecutor.Attempt` | src/execution/executor.rs:79-107 | one attempt collects the pass, validates everything collected, commits and aborts accordingly and keeps the rest; from empty chains it aborts nothing and commits every write set |
| `Executor.ParallelExecutor.ExecuteBatch` | src/execution/executor.rs:55-124 | from any chains: the attempts run as specified while something is pending and retries are left, and the results kept come back in sequence order; from empty chains any batch is done in one attempt, nothing is aborted or lost, the results are those of one in-order pass, and every write set is committed |
| `Executor.CommitKeepsFinal` | src/execution/executor.rs:91-96 | committing write sets changes nothing that finalize takes from the chains |
| `Executor.BatchSerialExactly` | src/execution/executor.rs:55-124 | executing, committing and finalizing is serial for every leading part of a batch and every admissible search, if and only if each transaction settles its keys where serial execution runs it |
| `Executor.SettledInStep` | src/execution/executor.rs:55-124 | then the committed chains stand for the serial state and cover no key outside it |
| `Blocks.NumberedInOrder` | src/node/node.rs:618-623 | in range, the numbering is ascending and keeps the order of the transactions |
| `Blocks.ListsItself` | src/execution/executor.rs:65-72 | a batch already in order is executed in exactly that order |
| `Blocks.UntangledIsClean` | src/node/node.rs:618-663 | a condition on numbers and addresses alone under which a block is executed serially from every state |
| `Blocks.FinalizeMirrors` | src/execution/mvcc.rs:175-199 | finalizing chains in step with a state leaves the tree with the hashes of exactly that state's entries |
| `Blocks.SerialGrows` | src/evm/vm.rs:169-258 | transactions never delete a key |
| `Blocks.ExecuteBlock` | src/node/node.rs:614-679 | a block whose transactions settle where serial execution runs them leaves the base state, results and mirrored tree of serial execution |
| `Blocks.RunBlocks` | src/node/node.rs:552-679 | any run of such blocks is serial execution block by block, with the tree mirroring the final state |
| `Blocks.StateRoot` | src/execution/mvcc.rs:175-199 | two mirrored states have the same root if and only if they are the same state |
| `Conservation.SupplyPut` | src/evm/vm.rs:401-410 | writing one account's balance moves the sum of balances by the difference |
| `Conservation.GasSplits` | src/evm/vm.rs:225-243 | fee and refund, each taken modulo 2^64, add up to what was paid or to 2^64 more |
| `Conservation.SenderEnds` | src/evm/vm.rs:197-236 | for all amounts, the sender ends with the balance less the lowest limb of the value and the fee, plus 2^64 for each carry the code loses sight of, modulo 2^256 |
| `Conservation.SupplyMoves` | src/evm/vm.rs:169-332 | a transaction that goes through moves the sum of balances by exactly its drift, for all amounts and every overlap of sender, recipient and miner |
| `Conservation.CallConserves` | src/evm/vm.rs:169-287 | for every call that goes through, in every state and for all amounts and overlaps, the sum of balances stays the same if and only if the carries and the upper limbs of the value add up to what refund, fee and credit wrap off |
| `Conservation.ThreeAccountsConserve` | src/evm/vm.rs:169-287 | among three accounts with gas products below 2^64: unchanged if and only if value and paid gas together fit one limb and the limit covers the gas used or gas is free, when crediting does not wrap; the case where it wraps exactly too |
| `Conservation.ShortGasMints` | src/evm/vm.rs:225-236 | a call with gas limit zero on an empty state goes through and brings 2^64 into being |
| `Conservation.SecondLimbMints` | src/evm/vm.rs:443-452 | a value of 2^64 is credited but not debited |
| `Conservation.WrappedValueConserves` | src/evm/vm.rs:269-273 | a value of 2^256 - 1 goes through, takes one from the recipient and leaves the sum the same |
| `Conservation.SelfMiningMints` | src/evm/vm.rs:228-250 | a sender who mines its own block is not charged and gains the fee: the sum grows by 21000 |
| `Conservation.RunConserves` | src/evm/vm.rs:129-287 | the sum of balances stays the same throughout a serial run if and only if every transaction that goes through has drift zero at its turn |
| `Conservation.SizedRunConserves` | src/evm/vm.rs:169-287 | any serial run of calls among three accounts each, the limit covering the gas used and the cost fitting one limb, keeps the sum of balances |
| `Conservation.BlocksConserve` | src/node/node.rs:552-679 | the same equivalence over any run of blocks |
| `Conservation.MinerSettles` | src/evm/vm.rs:225-250 | for exactly which amounts a mining sender's refund and credit agree |
| `Conservation.SelfPaymentSettles` | src/evm/vm.rs:197-250 | for exactly which amounts a self-payer's credit and refund agree |
| `Accounts.Verdict` | src/evm/vm.rs:129-195 | a transaction goes through if and only if the lowest limb stored in the sender's slot 1 is its nonce and the balance in slot 0 reaches the cost; otherwise it reports the nonce mismatch first, the missing funds second, charges the gas limit and changes nothing |
| `Accounts.GasReported` | src/evm/vm.rs:260-332 | 21000 for a call without code, else a base and a price per byte of data, capped by the limit; a creation returns the new address |
| `Accounts.NonceMoves` | src/evm/vm.rs:169-223 | a transaction that goes through finds its nonce stored and leaves the next one modulo 2^64; no other account's nonce changes |
| `Accounts.ReplayFails` | src/evm/vm.rs:169-195 | once a transaction has gone through, any with its sender and nonce fails on the nonce |
| `Accounts.NonceCounts` | src/evm/vm.rs:169-223 | over any serial run an account's stored nonce is the initial one plus the number of its transactions that went through, modulo 2^64 |
| `Accounts.NonceUsedOnce` | src/evm/vm.rs:169-223 | two transactions of a run with one sender and nonce that both went through are at least 2^64 apart |
| `Accounts.CodeMoves` | src/evm/vm.rs:290-332 | a creation leaves its code word in slot 2 of the new address; nothing else changes a code slot |
| `Accounts.OtherSlotsStay` | src/evm/vm.rs:169-332 | slots other than 0, 1 and 2 never change |
| `Accounts.BalancesMove` | src/evm/vm.rs:197-287 | every balance after a transaction that went through, as a number: the miner's with the fee, the sender's with cost and refund, the recipient's with the value, every overlap of the three and all wrap-around included |
| `Accounts.WriteSetIsLeft` | src/evm/vm.rs:401-428 | the write set has exactly the balance and nonce slots written, with the values left there, and not the code word |
| `Accounts.ReadSetIs` | src/evm/vm.rs:376-399 | the read set has the sender's two slots, and only when the checks pass the miner's and a paid callee's balance, with the values stored |
| `LruList.FindHolds` | src/storage/cache.rs:127-138 | lookup and membership agree, and removal deletes exactly the key |
| `LruList.ApplyKeeps` | src/storage/cache.rs:76-165 | every operation keeps keys distinct and the list within capacity |
| `LruList.RunKeeps` | src/storage/cache.rs:76-165 | so does every run |
| `LruList.Inclusion` | src/storage/cache.rs:76-138 | on any run the smaller cache holds a subsequence of the larger with equal values, so the larger never misses where the smaller hits |
| `LruTrace.RunFollows` | src/storage/cache.rs:76-138 | after any run the list holds the keys that the trace of operations decides, in the order of their last put or hitting get |
| `LruTrace.HoldsLastPut` | src/storage/cache.rs:76-138 | each held key has the value last put under it |
| `LruTrace.AnswersLastPut` | src/storage/cache.rs:76-138 | a hit, a removal and a put on a held key return the value last put; a put that evicts returns the value of the held key whose last use is oldest |
| `LruTrace.HeldAreMostRecent` | src/storage/cache.rs:95-124 | every key held was used after every key that was evicted and neither removed nor put again |
| `LruTrace.FilledStep` | src/storage/cache.rs:95-138 | that as many live keys are held as fit is lost by an operation if and only if it removes a held key after some other was evicted |
| `LruTrace.FilledMeans` | src/storage/cache.rs:95-138 | as many live keys are held as fit, if and only if the cache is full or nothing was evicted |
| `LruTrace.HoldsAsManyAsFit` | src/storage/cache.rs:76-138 | over every run without such a removal the keys held are the most recently used of the live ones, as many as fit |
| `LruTrace.RemovalLeavesRoom` | src/storage/cache.rs:127-138 | with such a removal they need not be: an evicted key does not come back to fill the room |
| `Lru.UnlinkKeepsLinks` | src/storage/cache.rs:220-240 | unlinking an interior or end slot leaves the links of the remaining order |
| `Lru.PushFrontKeepsLinks` | src/storage/cache.rs:201-217 | linking a slot in front leaves the links of the extended order |
| `Lru.LruCache.constructor` | src/storage/cache.rs:57-73 | an empty cache whose capacity is at least one |
| `Lru.LruCache.AllocateEntry` | src/storage/cache.rs:182-198 | reuses a free slot before growing, touches no listed slot, and never exceeds the capacity |
| `Lru.LruCache.AddToFront` | src/storage/cache.rs:201-217 | the slot becomes first in a correctly linked order |
| `Lru.LruCache.RemoveFromList` | src/storage/cache.rs:220-240 | the slot leaves a correctly linked order |
| `Lru.LruCache.MoveToFront` | src/storage/cache.rs:243-249 | the slot becomes first, the others keep their order |
| `Lru.LruCache.EvictLru` | src/storage/cache.rs:252-275 | drops and returns exactly the least recently used entry, if any |
| `Lru.LruCache.Get` | src/storage/cache.rs:76-92 | answers and reorders as the recency list does, and counts the hit or miss |
| `Lru.LruCache.Put` | src/storage/cache.rs:95-124 | stores, evicts and answers as the recency list does, which evicts the key whose last use is oldest (`LruTrace`) |
| `Lru.LruCache.Remove` | src/storage/cache.rs:127-138 | removes and answers as the recency list does |
| `Lru.LruCache.Clear` | src/storage/cache.rs:156-164 | empties the cache and keeps the counters |
| `Lru.Replay` | src/storage/cache.rs:57-266 | driven through any run, the cache holds what the recency list holds, in the order of last uses, its sizes agree and its slots never exceed the capacity |
| `Mempool.OrderIsNumeric` | src/types/mod.rs:236-237 | the index order is the numeric order for all lowest limbs if and only if the upper limbs are equal |
| `Mempool.HugePriceRanksLow` | src/types/mod.rs:236-237 | a price of 2^64 ranks below a price of 1 |
| `Mempool.AddMeans` | src/node/mempool.rs:57-88 | exactly when an addition is accepted, known or refused, and which transaction leaves |
| `Mempool.AddKeeps` | src/node/mempool.rs:57-88 | adding keeps both indices describing the same transactions, all known, within the limit |
| `Mempool.RemoveKeeps` | src/node/mempool.rs:91-98 | so does removing, which drops that transaction and keeps its commitment known |
| `Mempool.LowestPooled` | src/node/mempool.rs:139-153 | the first index key belongs to a pooled transaction and no pooled one is below it |
| `Mempool.RunConsistent` | src/node/mempool.rs:57-153 | over any run both indices describe the same transactions, all known, within the limit |
| `Mempool.AcceptedOnce` | src/node/mempool.rs:60-63 | over any run a commitment is accepted at most once, removed or evicted in between or not |
| `Mempool.TopUnique` | src/node/mempool.rs:111-121 | there is only one list of the top n in the index order |
| `Mempool.TopRanks` | src/node/mempool.rs:111-121 | each listed transaction ranks above the later ones and above those left out: by the first differing limb of the price, and at equal prices the greater commitment first |
| `Mempool.LeastRanks` | src/node/mempool.rs:139-153 | the evicted one ranks below every other: at equal prices the least commitment goes |
| `Mempool.TopIsNumeric` | src/node/mempool.rs:111-121 | the top lists are the numeric ones for every limit if and only if the two orders agree on the pooled prices |
| `Mempool.SharedAgree` | src/node/mempool.rs:111-121 | they agree when the pooled prices share their upper limbs |
| `Mempool.TurnedAwayBelow` | src/node/mempool.rs:57-88 | in a run that only adds, every evicted or refused price is at most every pooled price |
| `Mempool.TransactionPool.Add` | src/node/mempool.rs:57-88 | updates all three structures as specified and keeps them consistent |
| `Mempool.TransactionPool.Remove` | src/node/mempool.rs:91-98 | removes from both indices, keeps the commitment known, returns what was pooled |
| `Mempool.TransactionPool.EvictLowest` | src/node/mempool.rs:139-153 | evicts the lowest exactly when the new price is above it |
| `Mempool.TransactionPool.Best` | src/node/mempool.rs:111-121 | returns the top n in the index order, greatest first; the numeric top when the orders agree on the pooled prices |
| `Mempool.TransactionPool.MarkIncluded` | src/node/mempool.rs:177-185 | removes exactly the given commitments and counts those that were pooled |
| `Lamport.AfterExceeds` | src/types/lamport.rs:54-87 | an operation passes the clock and what it witnesses if and only if it does not overflow |
| `Lamport.AfterLeast` | src/types/lamport.rs:54-87 | and it skips nothing: no smaller timestamp would pass both |
| `Lamport.Linearizes` | src/types/lamport.rs:54-87 | under every interleaving of atomic steps the operations take effect one at a time in completion order |
| `Lamport.TimestampsIncrease` | src/types/lamport.rs:54-87 | returned timestamps increase in completion order if and only if nothing overflows |
| `Lamport.InputsBoundOverflow` | src/types/lamport.rs:54-87 | nothing overflows as long as the largest of the initial value and all witnessed timestamps, plus the number of completed operations, stays below 2^64 |
| `Lamport.TimestampsDistinct` | src/types/lamport.rs:54-87 | no two completed operations return the same timestamp |
| `Lamport.WitnessExceeds` | src/types/lamport.rs:71-87 | a witness is past what it witnessed and past every operation completed before it |
| `Lamport.ExchangeFailsExactly` | src/types/lamport.rs:71-87 | a compare-exchange fails if and only if another operation completed since the load |
| `Lamport.FailuresBounded` | src/types/lamport.rs:71-87 | no thread's exchange fails more often than operations complete |
| `Lamport.LamportClock.CallWitness` | src/types/lamport.rs:71-87 | alone, the retry loop ends past both the clock and the witnessed timestamp |
| `Lamport.LamportClock.WitnessMany` | src/types/lamport.rs:92-95 | witnesses the largest timestamp, zero when there is none |

## Left out

- Agreement.AgreementExactly: the sum of the stakes fits 64 bits; beyond that one more voter can undo a quorum (`Validators.OverflowLosesQuorum`), and what is proved for every validator set is `Agreement.LeadersAgree`.
- Agreement.IncrementalExactly: the same restriction, for the same reason.
- Jmt.GetRefines: lookup past depth 256 would index outside the path; no stored tree reaches it.
- Events carry only id, creator, round and strong parents; weak parents, Lamport time, payload and signature are not part of this model.
- Fee-recipient addresses of validators, logs, return data beyond the created address, and the text of error messages.
- Keccak-derived contract addresses and code words are parameters; code storage is fixed during a batch.
- Thread interleavings of the concurrent maps and locks: each public method is one step, except for the Lamport clock.
- The state that `with_base_state` starts from is not in the tree, as in the code; the tree theorems start from an empty state.
- Expiry of pooled transactions, receipt times and broadcast counts; the test helper that clears the known set.
- Threshold encryption, BLS signatures, networking, RPC, configuration, the page store, and the assembly of a block's transactions from committed events.
