# Espo, verified

A Dafny model of the parts of espo, a Bitcoin and alkanes indexer, where a wrong step would show up as wrong
data much later: how the mempool is packed into projected blocks, how execution traces are cleaned and turned
into storage changes, how the indexer commits blocks and rolls them back, and how the stores underneath are
read and written. `dafny verify dfyconfig.toml` checks all of it.

**Block templates.** `TemplateSpec` is the packing loop as a step machine over values, with everything the
program keeps up to date incrementally computed from scratch. About that machine `TemplateSafety`,
`TemplateBounds`, `TemplateRates`, `TemplateFilling`, `TemplateProgress` and `TemplateSchedule` prove what holds in
every state of every run: parents before children and nothing twice, even though transactions dropped for a conflict
count as used; weights and double spends; where every effective rate comes from; who waits for a later block and why
a block is closed; termination in spite of re-insertion; that nothing is mislaid, that every choice is greedy and when
the result is maximal. It need not be: `TemplateLeftovers` says why a transaction is left out although further blocks
are permitted, and gives a mempool where one that fits an empty block is forgotten because the last candidate conflicts. `Relatives`, `ModifiedQueue`, `Descendants`, `Packing`, `Packer` and `TemplateBuilder` are the
program's own imperative form (explicit stack, lazily cleaned heap with multiplicities, incremental sums), proved to
take exactly the machine's steps. `ReferenceRelatives` and `ReferenceBuilder` are the older recursive,
re-sorting form; it takes the same steps, so both return the same blocks and rates. `PackageRates` is the rate of
connected packages within one block, `RecalcWorker` the background recalculation as interleaved atomic steps,
`ClearProtection` the window in which a shrinking mempool is not believed.

**Traces.** `OrphanReturns` removes the returns that host functions leave without an invoke. The greedy pass is
sound and complete, removes the latest possible returns, and succeeds exactly when a count says so. It recovers the
returns that were really spliced in if and only if no genuine return that looks the same follows one of them before
all calls have closed; which returns look the same depends on whether the exact matches suffice.
`TraceStorage` is the stack walk that books storage on callees, `CallTrees` its meaning: balanced
traces are traversals of call trees, and the walk books each call on itself if and only if no call without a callee
is nested in one that has one.

**Indexing.** `BlockTree` is the versioned tree as the indexer sees it, `Indexer` the main loop with every phase that
can fail, `RewindCell` the lock-free cell through which rewinds are asked for, `Divergence` the walk that looks for
a reorganisation, `ChainAgreement` what follows for the stored chain. The tree takes a block whose parent has any
known root, and roots of abandoned blocks are kept. The state under a root is therefore always the state of that
block and its ancestors, but the heights are hash-linked only as long as every block builds on the committed tip. That
they do is proved for every run in which the node keeps to one branch between the divergence check and the load of
the block. If it changes in between, a branch that comes back can be committed on top of the other one, and the
check then overlooks the heights below; that run is given.

**Stores.** `NodeTree`, `TreeMutation`, `NodeStore`, `PendingNodes`, `TreeBatch` and `RangeScan` are the persistent
B+tree: copying writes with splits, batches whose new nodes wait in memory and are collected, spilled and flushed,
reads and range scans at any root ever produced. Nothing is assumed of the hash: a write does what it should, or it
names two different nodes with the same hash. `SkipScan` is the seek over
balance ids, which ends if and only if no id is continued by the byte 0xff. `PagedScan` is the paged scan of plain
rows and `BlockFiles` the index of the node's block files with the routes by which a block is fetched.

**Conventions.** Txids, hashes and tree keys are numbers in their byte order; tree keys are reals, in which the order of byte
strings embeds. Hash-map and hash-set iteration is an arbitrary order chosen anew each time; where it can
show in the result, among package members with equally many ancestors, it is the parameter `arrange`. The division of
a fee by a size is the parameter `rate`, so whatever rounding it has is covered; `PackageRates` uses exact
quotients. Answers of the node, the disk, the modules and the clock are parameters. A block hash is assumed to
determine height and parent.

Where the documentation and the code disagree, the model follows the code. The cleaner's comment says an empty set
means a balanced trace, but the code only compares counts (`OrphanReturns.EqualCountsMayBeUnbalanced`). The comment on the
recalculation worker says requests always converge on the latest state, which fails after a failed spawn
(`RecalcWorker.FailedSpawnLosesRequest`). The comment on the seek loop says the probe lands on the next id, which needs
the condition in `SkipScan.EndsIff`.

## Model

| member | source | states |
|---|---|---|
| `Relatives.ComputeRelatives` | src/runtime/mempool.rs:2713-2783 | ends on every graph, cyclic ones included; on an acyclic one every transaction ends up with exactly its transitive ancestors, exactly its children, and fee and size sums over that closure, whatever order the hash maps are iterated in |
| `Relatives.SearchFrom` | src/runtime/mempool.rs:2739-2781 | the explicit-stack search from one root finalises what it reaches, parents before children, and never gives up an entry finalised before |
| `Relatives.Finalise` | src/runtime/mempool.rs:2757-2778 | linking one transaction: its ancestors are its parents and theirs, its sums run over that set, each parent gains it as a child and nothing else changes |
| `ModifiedQueues.TopIsBest` | src/runtime/mempool.rs:2788-2812 | the heap order serves the scheduling order: a current entry on top of a covering heap is the queued transaction with the highest score, smaller id on ties |
| `ModifiedQueues.ModifiedQueue.constructor` | src/runtime/mempool.rs:2837-2839 | an empty queue stands for the empty multiset |
| `ModifiedQueues.ModifiedQueue.PushEntry` | src/runtime/mempool.rs:2841-2845 | a fresh heap entry makes the queue valid again after the score of that transaction changed, and queues nothing |
| `ModifiedQueues.ModifiedQueue.Enqueue` | src/runtime/mempool.rs:2847-2850 | the multiset grows by exactly one occurrence, and the queue stays valid even if the score had just changed |
| `ModifiedQueues.ModifiedQueue.Rekey` | src/runtime/mempool.rs:2852-2857 | after a score change the queue is valid again and the multiset is what it was |
| `ModifiedQueues.ModifiedQueue.Clean` | src/runtime/mempool.rs:2867-2874 | dropping stale entries keeps the multiset; afterwards the heap is empty exactly if nothing is queued, and its top is a queued transaction at its current score |
| `ModifiedQueues.ModifiedQueue.Peek` | src/runtime/mempool.rs:2876-2879 | answers the best queued transaction by current score, or nothing exactly if nothing is queued |
| `ModifiedQueues.ModifiedQueue.DropAll` | src/runtime/mempool.rs:2884-2888 | every duplicate of the popped entry goes, and every other queued transaction stays covered |
| `ModifiedQueues.ModifiedQueue.Pop` | src/runtime/mempool.rs:2881-2898 | removes exactly one occurrence of the best queued transaction, stale entries notwithstanding |
| `ModifiedQueues.ModifiedQueue.IsEmpty` | src/runtime/mempool.rs:2900-2903 | true exactly if every multiplicity is zero |
| `Descendants.ForgetMatches` | src/runtime/mempool.rs:2929-2939 | taking a placed ancestor out of one transaction leaves its set, sums, score, dependency rate and modified flag exactly as computed from scratch |
| `Descendants.UpdateDescendants` | src/runtime/mempool.rs:2906-2948 | after a placement every pool entry again holds exactly its remaining ancestors and the sums over them, and exactly the newly modified descendants are queued once more |
| `Packing.RelativesMatch` | src/runtime/mempool.rs:2955-2989 | the pool as first built agrees with the from-scratch ancestor sets, sums and scores of the mempool |
| `Packing.MarkPackage` | src/runtime/mempool.rs:3075-3091 | placing marks exactly the unused members, in package order, and adds their outpoints, rates and weights |
| `Packers.Packer.constructor` | src/runtime/mempool.rs:2998-3006 | the fields stand for the initial state |
| `Packers.Packer.SkipUsed` | src/runtime/mempool.rs:3009-3013 | advances exactly past the used and queued slots |
| `Packers.Packer.TakeTop` | src/runtime/mempool.rs:3015-3038 | taking from the array moves on by one slot and changes nothing else |
| `Packers.Packer.PackageFits` | src/runtime/mempool.rs:3045-3047 | decides exactly whether the package fits the current block |
| `Packers.Packer.PackageOf` | src/runtime/mempool.rs:3049-3056 | the package is the remaining ancestors by number of ancestors, stably, then the candidate |
| `Packers.Packer.DropCandidate` | src/runtime/mempool.rs:3066-3072 | a conflicting candidate is marked used without being placed; nothing else changes |
| `Packers.Packer.Enter` | src/runtime/mempool.rs:3081-3095 | the fields after a placement stand for the state with the package placed |
| `Packers.Packer.PostponeCandidate` | src/runtime/mempool.rs:3096-3099 | a candidate that does not fit goes to the end of the overflow |
| `Packers.Packer.StartBlock` | src/runtime/mempool.rs:3108-3110 | closing a block stores it and starts an empty one |
| `Packers.Packer.PutBack` | src/runtime/mempool.rs:3115-3118 | a postponed transaction returns to the slot before the current one |
| `TemplateBuilder.ComputePlacement` | src/runtime/mempool.rs:3073-3094 | marking a package and then updating descendants one by one gives the pool and queue of the whole placement |
| `TemplateBuilder.PlacePackage` | src/runtime/mempool.rs:3073-3095 | the object after a placement stands for the placed state |
| `TemplateBuilder.Select` | src/runtime/mempool.rs:3009-3038 | the candidate taken is the one the step machine takes, from the array or the queue |
| `TemplateBuilder.Judge` | src/runtime/mempool.rs:3040-3100 | a candidate is skipped, postponed, dropped or placed exactly as the step machine does |
| `TemplateBuilder.ReinsertAll` | src/runtime/mempool.rs:3111-3120 | postponed transactions return last one first, to the queue or the array |
| `TemplateBuilder.CloseIfDue` | src/runtime/mempool.rs:3102-3121 | a block closes, or the loop ends, exactly when the step machine does |
| `TemplateBuilder.Iteration` | src/runtime/mempool.rs:3008-3122 | one round of the loop is one step of the step machine |
| `TemplateBuilder.Run` | src/runtime/mempool.rs:3008-3122 | the loop ends in the final state of the step machine |
| `TemplateBuilder.BuildTemplates` | src/runtime/mempool.rs:2950-3128 | the blocks and rates are those of a complete run of the step machine, for every acyclic mempool |
| `TemplateBuilder.CalculateBlockTemplates` | src/runtime/mempool.rs:2950-3128 | for every acyclic mempool the result is topologically valid, has at most max(1, max_blocks) blocks, rates exactly the placed transactions, and every rate is explained by the package the transaction was placed in |
| `TemplateSafety.PackageIsTopological` | src/runtime/mempool.rs:3049-3056 | a package lists every remaining ancestor of each member before it, for any order of equal keys |
| `TemplateSafety.PackageIsFresh` | src/runtime/mempool.rs:3057-3079 | a package that does not conflict holds no used transaction at all |
| `TemplateSafety.PlaceIsSafe` | src/runtime/mempool.rs:3073-3095 | placing keeps what is placed closed under ancestors, ordered and free of repetition |
| `TemplateSafety.DropIsSafe` | src/runtime/mempool.rs:3066-3072 | a dropped transaction has a member in its closure that can never be placed, so nothing above it ever is |
| `TemplateSafety.StepIsSafe` | src/runtime/mempool.rs:3008-3122 | every step keeps the safety invariant |
| `TemplateSafety.RunIsSafe` | src/runtime/mempool.rs:3008-3122 | every state of every run is safe |
| `TemplateSafety.TemplatesAreTopologicallyValid` | src/runtime/mempool.rs:5286-5308 | over the blocks of any run: no transaction twice, every in-pool parent strictly earlier, and rates for exactly the placed transactions |
| `TemplateBounds.PlaceIsPacked` | src/runtime/mempool.rs:3045-3047 | a package placed because it fits keeps an unfinished early block below the limit, if no weight exceeds four times the size |
| `TemplateBounds.PlaceIsSpending` | src/runtime/mempool.rs:3057-3085 | two placed transactions that share an outpoint came in one package |
| `TemplateBounds.TemplatesFit` | src/runtime/mempool.rs:2955-3127 | at most max(1, max_blocks) blocks, none empty; every block before the last permitted one has 4000 plus its weight below the limit |
| `TemplateBounds.TemplatesDoNotDoubleSpend` | src/runtime/mempool.rs:3057-3085 | two placed transactions share an outpoint only if both are in the closure of one placed transaction; the blocks spend no outpoint twice if and only if no placed closure does |
| `TemplateRates.RatesAreExplained` | src/runtime/mempool.rs:3041-3095 | the finished blocks fall into packages, one after the other, each a transaction with its ancestors not placed before; each package has one rate, the least of the own rate of its last member, the rates of that member's ancestors placed before, and all fees of the package by all its sizes; no transaction has a higher rate than an ancestor |
| `TemplateRates.PlaceIsRated` | src/runtime/mempool.rs:3073-3095 | placing a package keeps that account, and every dependency rate the least of the own rate and the rates of the placed ancestors |
| `TemplateFilling.CandidateIsSettledIff` | src/runtime/mempool.rs:3045-3099 | in every run a candidate is placed or dropped exactly if no later block is permitted or 4000 plus the weight of the block plus four times the size of the package is below the limit; otherwise it waits for a later block |
| `TemplateFilling.BlocksCloseOnlyIf` | src/runtime/mempool.rs:3102-3109 | in every run a block is closed only when every transaction is placed, dropped or postponed, or when 1001 iterations in a row placed nothing and no more than 4000 is left in it |
| `TemplateFilling.BlocksStayOpenOnlyIf` | src/runtime/mempool.rs:3101-3104 | and an iteration that places or postpones leaves a block open only if it is the last permitted one, at most 1000 candidates in a row failed, or more than 4000 is left in it |
| `TemplateFilling.ChoiceIsGreedy` | src/runtime/mempool.rs:3008-3038 | in every run the candidate taken has, among all that are not placed, dropped or postponed, the highest fees by size over its unplaced ancestors and itself; on a tie one with a placed ancestor goes first, then the smaller id |
| `TemplateProgress.StepProgresses` | src/runtime/mempool.rs:3008-3122 | every step that does not end the loop lowers a measure, re-insertion of the overflow included |
| `TemplateProgress.RunTerminates` | src/runtime/mempool.rs:3008-3122 | the packing loop ends from every state |
| `TemplateSchedule.StepSchedules` | src/runtime/mempool.rs:3008-3122 | no transaction is mislaid: each is used, at hand or postponed, and what is unmodified stays in the initial order |
| `TemplateSchedule.RunIsScheduled` | src/runtime/mempool.rs:3008-3122 | the accounting invariant holds in every state of every run |
| `TemplateSchedule.CandidateIsBest` | src/runtime/mempool.rs:3015-3038 | whatever is taken, nothing at hand has a higher package score |
| `TemplateSchedule.NothingIsLost` | src/runtime/mempool.rs:2824-2830 | when the work runs out every transaction is placed, was dropped for a conflict, or is still postponed; with all permitted blocks open none is postponed |
| `TemplateSchedule.LastBlockIsMaximal` | src/runtime/mempool.rs:3045-3047 | when all permitted blocks are open the last one takes everything that does not conflict |
| `TemplateSchedule.TemplatesAreMaximal` | src/runtime/mempool.rs:3045-3127 | when the permitted number of blocks results, a transaction is left out exactly if its closure holds a conflict with what was placed |
| `TemplateLeftovers.LeftOutOnlyIf` | src/runtime/mempool.rs:3007-3124 | where more blocks are permitted, a transaction that was not dropped is left out only if it does not fit an empty block, or more than 1000 candidates in a row failed on an empty block without room beyond the reserved weight, or the last iteration passed its candidate over and so never looked whether a further block is due |
| `TemplateLeftovers.PostponedIsForgotten` | src/runtime/mempool.rs:3066-3072 | a mempool of three where that happens: the last candidate conflicts, and a postponed transaction that fits an empty block is in no block although two more are permitted |
| `HashOrder.SortByScoreSorts` | src/runtime/mempool.rs:2991-2996 | the array starts best first |
| `HashOrder.BestFirstIsUnique` | src/runtime/mempool.rs:2991-2996 | there is only one such order, so hash-map iteration order does not show |
| `ReferenceRelatives.SetRelatives` | src/runtime/mempool.rs:4947-4983 | the recursive form computes the same closure and sums |
| `ReferenceRelatives.SetAllRelatives` | src/runtime/mempool.rs:4947-4983 | calling it for every transaction, in any order, gives the same pool as the memoised search |
| `ReferenceBuilder.UpdateDescendants` | src/runtime/mempool.rs:4985-5025 | the older descendant update has the same effect |
| `ReferenceBuilder.Select` | src/runtime/mempool.rs:5027-5209 | re-sorting the whole list picks the same candidate as the lazily cleaned heap |
| `ReferenceBuilder.Iteration` | src/runtime/mempool.rs:5027-5209 | one round of the older loop is one step of the same step machine |
| `ReferenceBuilder.OldCalculateBlockTemplates` | src/runtime/mempool.rs:5027-5209 | the older builder produces a complete run of the step machine |
| `ReferenceBuilder.TemplatesAreUnique` | src/runtime/mempool.rs:2950-3128 | a mempool has only one result, given the order of equal-key package members |
| `ReferenceBuilder.TemplatesMatchReference` | src/runtime/mempool.rs:5310-5336 | the optimised and the older builder return the same blocks and the same rates on every acyclic mempool |
| `PackageRates.BuildLinks` | src/runtime/mempool.rs:3165-3176 | the undirected links are exactly the in-block parent links |
| `PackageRates.FindComponent` | src/runtime/mempool.rs:3180-3194 | the search returns exactly one connected component, each member once, disjoint from those before |
| `PackageRates.PackageEffectiveRates` | src/runtime/mempool.rs:3160-3217 | every transaction of the block, and no other, gets the rate of its connected component |
| `PackageRates.ComponentsAreDisjoint` | src/runtime/mempool.rs:3178-3194 | components that meet are equal, so they partition the block |
| `PackageRates.SharedRate` | src/runtime/mempool.rs:3196-3214 | in a component of more than one transaction everybody has the one rate whose product with the total size is the total fee |
| `PackageRates.LoneRate` | src/runtime/mempool.rs:3208-3211 | a transaction without in-block relatives carries the rate it was selected at, else its own |
| `RecalcWorker.NextIsInvariant` | src/runtime/mempool.rs:3276-3310 | every atomic step of every thread keeps exclusion, coverage of requests and the charge of runs to requests |
| `RecalcWorker.OneAtATime` | src/runtime/mempool.rs:3276-3324 | in every interleaving at most one thread is the worker, at most one recalculates, and the worker starts no more runs than there were requests |
| `RecalcWorker.NoRequestIsLost` | src/runtime/mempool.rs:3267-3301 | once all threads have finished, a recalculation began after every request except exactly the stranded ones: those waiting when a try of the lock was last turned away with the flag down, if since then no flag was raised and no recalculation began |
| `RecalcWorker.RaisedFlagIsServed` | src/runtime/mempool.rs:3267-3301 | if the flag is up at some point and no later try of the lock is turned away, nothing is left waiting in the end, lost requests included |
| `RecalcWorker.SpawningSuffices` | src/runtime/mempool.rs:3276-3324 | if no spawn of the schedule fails, no try of the lock is turned away, so every request is followed by a run that starts after it |
| `RecalcWorker.StepsLowerRank` | src/runtime/mempool.rs:3281-3302 | every step other than a new request lowers a rank |
| `RecalcWorker.ComesToRest` | src/runtime/mempool.rs:3281-3302 | without new requests every schedule is finite, and it can stop only when all threads are done |
| `RecalcWorker.FailedSpawnLosesRequest` | src/runtime/mempool.rs:3303-3309 | a schedule with one failed spawn that ends with a request nobody served |
| `ClearProtection.MempoolStatus.Update` | src/runtime/mempool.rs:3655-3712 | without a deadline a refresh is refused exactly if the store has more than 20000 and the list at most four fifths of it, before the deadline exactly if the list is shorter, after it never; the deadline is set, kept or cleared accordingly |
| `ClearProtection.RefusalsAreMonotone` | src/runtime/mempool.rs:3669-3672 | a list at least as long as the store is never refused, and if one is refused, so is a shorter one |
| `ClearProtection.DeadlineIsAhead` | src/runtime/mempool.rs:3674-3712 | a deadline that stands after a refresh lies ahead of it, and one that lies ahead is kept |
| `ClearProtection.DeadlineStands` | src/runtime/mempool.rs:3674-3683 | a standing deadline was set by one refusal and has not moved since |
| `ClearProtection.RefusalsEnd` | src/runtime/mempool.rs:3655-3712 | every refusal lies less than max(clear_protection_secs, 1) after the refusal that opened its window |
| `ClearProtection.PersistentDropIsAccepted` | src/runtime/mempool.rs:3664-3669 | a drop that persists is accepted by the first refresh at or after the deadline, whatever came in between, and the protection starts afresh |
| `OrphanReturns.RebalancingSize` | src/alkanes/utils.rs:153-155 | a set of returns that rebalances the trace has exactly as many members as there are surplus returns |
| `OrphanReturns.LatestIsUnique` | src/alkanes/utils.rs:174-203 | at most one rebalancing set takes the latest possible returns |
| `OrphanReturns.Validate` | src/alkanes/utils.rs:209-233 | the second pass accepts exactly the removals that leave a balanced, never-negative stack |
| `OrphanReturns.Attempt` | src/alkanes/utils.rs:174-236 | one attempt succeeds exactly if some set of candidate returns rebalances the trace, and then returns the latest such set; the second pass never rejects it |
| `OrphanReturns.AttributableIff` | src/alkanes/utils.rs:174-236 | counting decides whether an attempt can succeed: up to every point enough candidates for the returns from an empty stack, and no more of those than in the whole trace |
| `OrphanReturns.LatestIff` | src/alkanes/utils.rs:174-203 | a rebalancing set is the latest one if and only if no member is followed, before all calls have closed, by a candidate left in place |
| `OrphanReturns.OrphanReturnRemovals` | src/alkanes/utils.rs:132-238 | exact matches are tried first and fuzzy ones only if no exact set exists; equal counts remove nothing, missing returns give up |
| `OrphanReturns.RemovalsAreUnique` | src/alkanes/utils.rs:132-238 | that specification leaves exactly one answer |
| `OrphanReturns.CleanerAnswersIff` | src/alkanes/utils.rs:132-238 | the cleaner gives up exactly if the counts differ and candidates of any kind cannot make up for it |
| `OrphanReturns.EqualCountsMayBeUnbalanced` | src/alkanes/utils.rs:146-148 | a trace with equal counts that is left alone although it is not balanced |
| `OrphanReturns.CleanedIsBalanced` | src/alkanes/utils.rs:146-148 | a cleaned trace is balanced exactly if returns outnumbered invokes or no prefix returned from an empty stack |
| `OrphanReturns.CleanerFindsHostReturns` | src/alkanes/utils.rs:132-238 | for host returns spliced into a balanced trace, matching exactly or fuzzily, exactly those are removed if and only if they stand out among the exact matches, or the exact matches cannot make up for the surplus and they stand out among all matches; standing out is not being followed, before all calls have closed, by another match left in place |
| `OrphanReturns.CleanerFindsAllCandidates` | src/alkanes/utils.rs:132-238 | in particular they are found whenever no genuine return matches |
| `TraceStorage.ExtractAlkaneStorage` | src/alkanes/trace.rs:169-226 | the result is what the recorded reports of the surviving events give, or an error exactly if a surviving callee has no complete id |
| `TraceStorage.CandidatesAre` | src/alkanes/utils.rs:92-172 | the cleaner may remove exactly the successful exits without transfers and storage whose data is not empty and equals the header, the coinbase, the diesel mint or the fee, and in the fuzzy attempt those that decode as some header or coinbase |
| `TraceStorage.ToSchemaNames` | src/schemas.rs:45-63 | an id converts exactly if both halves are there, to its own block and transaction, cut off at 32 and 64 bits |
| `TraceStorage.SchemaRoundTrip` | src/schemas.rs:45-78 | converting back and forth loses nothing, from a message exactly if both halves fit |
| `CallTrees.BalancedIsTree` | src/alkanes/trace.rs:190-222 | every balanced trace is the traversal of a tree of calls |
| `CallTrees.TreeIsBalanced` | src/alkanes/trace.rs:190-222 | and every traversal is balanced |
| `CallTrees.WalkIsGenuine` | src/alkanes/trace.rs:195-216 | the stack walk books every call on its own callee if and only if no call without a callee is nested in one that has one |
| `CallTrees.LastWriteWins` | src/alkanes/trace.rs:207-214 | per callee and key the changes hold the value of the last write, with the transaction id |
| `CallTrees.GenuineStorage` | src/alkanes/trace.rs:195-216 | the recorded reports of a call tree are its storage: owners by block and transaction, last write per key |
| `CallTrees.StorageOfSplicedTrace` | src/alkanes/trace.rs:180-225 | round trip: reading a traversal with answers of host functions spliced in, exact or fuzzy, that the cleaner can tell, gives the storage of the call tree: an error exactly if a callee's id is incomplete, else as owners exactly the callees that gave a response, and under every key the last write to it, no write lost or moved |
| `CallTrees.MistakenReturnMovesStorage` | src/alkanes/trace.rs:180-225 | a trace where a genuine return is taken for a host return and a write is booked on the wrong contract |
| `RewindCell.CellHoldsMinimum` | src/main.rs:229-243 | in every interleaving of posts and takes the cell holds the least height posted since the last take |
| `RewindCell.NoPostIsLost` | src/main.rs:229-243 | for every finished post the indexer took, or takes next, a height at or below it |
| `RewindCell.LoweredTells` | src/main.rs:229-243 | a post answers that it lowered the cell exactly if it did, and then to its own height |
| `RewindCell.RetryMeansChange` | src/main.rs:231-241 | a compare-and-swap fails only if somebody else changed the cell; undisturbed, the second try finishes |
| `Divergence.DetectFirstDivergenceHeight` | src/main.rs:397-450 | whatever is read: an answer is the lower end of the top stretch of differing heights, no answer means equal tips or an unreadable height |
| `Divergence.DivergenceIsUnique` | src/main.rs:397-450 | the readings leave exactly one answer |
| `Divergence.WalkFindsLeast` | src/main.rs:397-450 | with everything readable the answer is the least height of disagreement if and only if agreement is an initial stretch |
| `Divergence.LinkedWalkFindsLeast` | src/main.rs:397-450 | for hash-linked chains it is, and there is no answer exactly if the chains agree up to the tip |
| `BlockTree.Tree.BeginBlock` | src/runtime/tree_db.rs:265-296 | a block begins exactly if its parent is under construction, or has a root, or nothing is committed, and on that root |
| `BlockTree.Tree.FinishBlock` | src/runtime/tree_db.rs:312-349 | the block is committed under its height and root; a failed write keeps the disk but not the memory |
| `BlockTree.Tree.RewindToHeight` | src/runtime/tree_db.rs:351-411 | exactly the heights above the target go, the active root is that of the target, roots of dropped blocks stay |
| `BlockTree.Tree.RewindBefore` | src/modules/reorg.rs:21-37 | the state before the given height is the active one again; it fails only if the disk does |
| `Indexer.IndexerState.SetRewindTarget` | src/main.rs:229-243 | posting lowers the cell to the minimum and says whether it did |
| `Indexer.IndexerState.HandleReorgSwitch` | src/modules/reorg.rs:61-90 | the switch succeeds exactly if every module agrees, the tree is written and every module then reports a lower height; then all of it is below the height |
| `Indexer.IndexerState.RollbackFailedBlock` | src/main.rs:308-313 | a rolled back block leaves modules and tree below its height, exactly if the switch succeeds |
| `Indexer.IndexerState.IndexModules` | src/main.rs:917-935 | it succeeds exactly if every module but the deferred one whose genesis is reached does; those then have the heights they answered, the others keep theirs |
| `Indexer.IndexerState.BuildBlock` | src/main.rs:878-978 | the block is in the tree exactly if it is the node's, its parent has a root, all modules succeeded and the write did; else the disk is untouched |
| `Indexer.IndexerState.CommitBlock` | src/main.rs:876-1053 | the block is committed exactly if it is the node's, its parent has a root, every module whose genesis is reached succeeds, the deferred one included, and the writes do; then those modules have the heights they answered and the others keep theirs; otherwise, if the indexer goes on, heights, active state and modules are as before |
| `Indexer.IndexerState.TakeRewind` | src/main.rs:736-751 | a requested rewind below the next height is taken: exactly the blocks below it stay |
| `Indexer.IndexerState.IndexNext` | src/main.rs:753-1053 | at the height reached, a block is committed exactly if both tips are known, no divergence below shows, the block is due and there, its parent has a root and every phase succeeds; the rewind asked for is the divergence found; the indexer ends exactly if the last height asked for is passed or a failed block cannot be rolled back |
| `Indexer.IndexerState.Iterate` | src/main.rs:731-1053 | whatever fails, an indexer that goes on is aligned: no module and no committed block at or above the next height, shared height equal, active state that of the block below; it goes on, commits and asks for a rewind exactly as the two halves say |
| `Indexer.IndexerState.Run` | src/main.rs:731-1053 | so it is at the head of every iteration of every run; the heights stay hash-linked in every run in which no iteration sees the node change branches between the check and the block; and an indexer on the node's chain commits one block per iteration as long as the node stays on that chain and every phase succeeds |
| `Indexer.CommitKeepsLinks` | src/runtime/tree_db.rs:265-296 | committing keeps the heights hash-linked if and only if the block builds on the committed tip |
| `Indexer.CommitsOnAgreement` | src/main.rs:797-809 | if the node does not change branches within an iteration, a block is committed only on a stored tip that is on the node's chain |
| `ChainAgreement.RewindRestoresAgreement` | src/main.rs:797-809 | for linked, readable chains everything below a reported height is on the node's chain, and no report means all of it is |
| `ChainAgreement.ReturningBranchUnlinks` | src/main.rs:731-1053 | a run of iterations in which the node changes branches between the divergence check and the load of a block: the block of a branch that comes back is committed on top of the other branch, and the next iteration goes on from there |
| `ChainAgreement.UnlinkedHeightsMislead` | src/main.rs:397-450 | after it the divergence check reports nothing although lower heights differ |
| `NodeTree.ChildIndexForKey` | src/runtime/tree_db.rs:195-208 | bisection finds the number of separators at or below the key |
| `NodeTree.ValidFrame` | src/runtime/tree_db.rs:1519-1540 | a root stays a valid balanced search tree when nodes are added |
| `NodeTree.HoldsFrame` | src/runtime/tree_db.rs:1519-1540 | and keeps answering every key as it did: historical reads are preserved |
| `NodeTree.HoldsOne` | src/runtime/tree_db.rs:572-594 | a root holds at most one value per key |
| `TreeMutation.UpdateLeaf` | src/runtime/tree_db.rs:1126-1160 | the entries are the old ones with the value under the key, sorted and without deletion marks, and the answer says exactly whether anything changed |
| `TreeMutation.SplitChildWrites` | src/runtime/tree_db.rs:1208-1212 | putting the two halves of a child in its place changes nothing but the written key |
| `TreeMutation.HalvesHold` | src/runtime/tree_db.rs:1225-1248 | cutting an inner node in half answers every key as before |
| `NodeStores.NodeStore.StoreNode` | src/runtime/tree_db.rs:1402-1417 | storing adds the node under its hash, within a batch to memory only, and changes no other; it clashes exactly if a different node is there under that hash |
| `NodeStores.NodeStore.SplitLeaf` | src/runtime/tree_db.rs:1171-1189 | a leaf cut exactly in half stands for the updated entries on either side of the separator |
| `NodeStores.NodeStore.StoreInner` | src/runtime/tree_db.rs:1215-1254 | an inner node that has grown too large is cut exactly in half around its middle separator; the node or the two halves hold what the old node held, but for the written key |
| `NodeStores.NodeStore.MutateNode` | src/runtime/tree_db.rs:1117-1255 | for any hash: the outcome is a valid tree, or two around a separator, of the same height that answers every key as before except the one written, and all old nodes stay; or two different nodes with the same hash were met |
| `NodeStores.NodeStore.ApplySingle` | src/runtime/tree_db.rs:1001-1021 | the new root is a valid tree with exactly that one key changed, at most one level higher, or two nodes collide |
| `NodeStores.NodeStore.GetAtRoot` | src/runtime/tree_db.rs:572-594 | reads exactly what the root holds on the disk |
| `TreeBatch.StableSortIs` | src/runtime/tree_db.rs:694-696 | a stable sort keeps the last change to each key |
| `TreeBatch.Canonicalize` | src/runtime/tree_db.rs:694-709 | keys strictly increasing, and for each key its last change |
| `TreeBatch.AfterAllStepwise` | src/runtime/tree_db.rs:694-709 | what holds after a batch is what holds after making its changes one by one |
| `PendingNodes.Reachable` | src/runtime/tree_db.rs:1055-1069 | the walk from the root finds the least set of ids that waiting nodes do not lead out of, and ends on cycles too |
| `PendingNodes.ClosedPartIsSame` | src/runtime/tree_db.rs:1050-1076 | a tree is the same, key by key, in any part of the nodes that has its root and is closed under children |
| `PendingNodes.RetainReachable` | src/runtime/tree_db.rs:1050-1076 | exactly the unreachable waiting nodes are dropped, or none if as many ids are reachable as nodes wait, and the root answers every key as before |
| `PendingNodes.FlushPending` | src/runtime/tree_db.rs:1078-1115 | exactly the reachable waiting nodes are written, and the disk alone then has the whole tree |
| `PendingNodes.MaybeCompact` | src/runtime/tree_db.rs:1023-1048 | whatever is dropped or spilled, the root answers every key as before, the disk only grows, and fewer nodes wait than the hard limit; nodes are dropped exactly when due and spilled exactly when too many remain |
| `TreeBatch.ApplyBatch` | src/runtime/tree_db.rs:686-772 | the disk then has the new root, which holds what applying the changes in the given order would; every older root is untouched; or two nodes collide |
| `RangeScan.FindLeaf` | src/runtime/tree_db.rs:1257-1280 | everything left of the leaf found is below the key and everything right of the path above it |
| `RangeScan.NextLeaf` | src/runtime/tree_db.rs:1282-1309 | moves to the next leaf in order, and says there is none exactly at the end |
| `RangeScan.RangeEntries` | src/runtime/tree_db.rs:816-855 | the result is the range cut out of the in-order entries |
| `RangeScan.RangeEntriesPage` | src/runtime/tree_db.rs:881-929 | a forward page is that slice of the whole range |
| `RangeScan.TreeInOrder` | src/runtime/tree_db.rs:1486-1517 | the entries of a valid tree read in order are strictly sorted |
| `RangeScan.RangeIsExact` | src/runtime/tree_db.rs:816-855 | a range lists, in increasing order and each once, exactly the pairs that searching finds in it |
| `SkipScan.CollectIds` | src/alkanes/metashrew.rs:471-510 | on keys where it ends the seek loop lists, each once and in increasing order, exactly the 32-byte ids that follow the prefix in some key, short keys notwithstanding |
| `SkipScan.ListIsUnique` | src/alkanes/metashrew.rs:471-510 | there is only one such list, so it is what a scan of every key would find |
| `SkipScan.EndsIff` | src/alkanes/metashrew.rs:483-510 | the loop ends if and only if no 32-byte id under the prefix is continued by the byte 0xff |
| `SkipScan.LessIsLexicographic` | src/alkanes/metashrew.rs:471-510 | keys are ordered by the first byte in which they differ |
| `PagedScan.ScanRange` | src/runtime/mdb.rs:284-318 | the range scan returns exactly the rows of the namespace in the range, in order |
| `PagedScan.FilterExactly` | src/runtime/mdb.rs:284-318 | a row comes out exactly if prefix and key together are stored with its value and lie in the range |
| `PagedScan.FilterIsSorted` | src/runtime/mdb.rs:284-318 | and the rows come out in the order of their keys |
| `PagedScan.ScanPage` | src/runtime/mdb.rs:631-684 | a page is that slice of the filtered range, from the front or from the back |
| `PagedScan.PagesCoverRange` | src/runtime/mdb.rs:631-684 | asking for page after page until one comes back short yields the whole range, each row once, from the front or from the back |
| `BlockFiles.IndexFile` | src/core/blockfetcher.rs:411-506 | the index gains exactly the records that can be read from the start of the file |
| `BlockFiles.IndexIsSound` | src/core/blockfetcher.rs:488-499 | whatever the file holds, an indexed location delimits the payload of the block it is listed under |
| `BlockFiles.IndexRoundTrip` | src/core/blockfetcher.rs:440-503 | for records followed by the end or zero padding, every record is found at its place |
| `BlockFiles.ReadsLittleEndian` | src/core/blockfetcher.rs:440-503 | the numbers of a record header are little-endian |
| `BlockFiles.BlockSource.CacheFile` | src/core/blockfetcher.rs:333-406 | warming the cache succeeds exactly if the file is there and the node answers for every block in it, and then it has exactly the blocks of the file on the active chain, each under its own hash |
| `BlockFiles.BlockSource.ReadBlock` | src/core/blockfetcher.rs:626-666 | a block that comes back has the hash asked for, is cached then, and is on the active chain unless it was cached before; one comes back if its location delimits it and the node counts it as active |
| `BlockFiles.BlockSource.EnsureIndexContains` | src/core/blockfetcher.rs:531-622 | exactly the blocks of the newly indexed files are added, none is indexed after one that holds the hash or the stop hash, and the answer says whether the hash is indexed; it is not only if the stop hash is or no file not yet indexed holds the block |
| `BlockFiles.BlockSource.GetBlockByHeight` | src/core/blockfetcher.rs:746-880 | by whichever route, a block that comes back has the hash the node gives for the height; within 6000 of the tip, or when only the node is asked, one comes back exactly if the node serves it; further down one comes back if the node serves it or its indexed location is readable, and without the node in the latter case; when the hash of a height has changed, no stale block stays cached |

## Left out

- 64-bit saturation of fee, size and weight sums, and 32-bit wrap-around of heights: sums and heights are unbounded.
- NaN scores: a rate is a real number, so incomparable scores do not occur.
- A mempool with a cyclic parent relation beyond the search itself: `Relatives.ComputeRelatives` ends on one, the other results ask for acyclicity, which the node guarantees.
- Indexer.IndexerState.Iterate: the tree is taken to start at the genesis height of the indexer; a tree first written at a higher start height is not modelled.
- Indexer.IndexerState.BuildBlock: all modules together map the parent's state to the block's; what a single module writes is not part of this model.
- Pinning of the active root in the versioned tree, which nothing calls.
- NodeStores.NodeStore.StoreNode: a collision of node hashes ends the operation here; the program does not notice it and goes on.
- Reverse pages and multi-key reads of the tree, and the decoding of old fixed-size pages.
- Reading the storage views of the sandshrew form of a trace, and the conversion of trace ids to text.
- The mempool's network side (ZMQ, P2P, hydration), rune and DIESEL projections, fee statistics and template deltas: they would only add easy members.
- The HTTP and RPC servers, the explorer, the modules' own indexing, configuration, logging and retries.
- Consensus and protobuf decoding and hashing, which are parameters here.
