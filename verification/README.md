# Verified model of BusTub's core

BusTub is a small relational database. This project models three parts of it in Dafny and proves what
they are for.

**Locking.** `LockQueue`, `LockProtocol` and `LockInvariants` give the lock manager as a state machine:
request queues, lock sets, isolation rules, sleeping and waking transactions. `LockRuns` proves what holds
over whole runs. `WaitsFor` is the waits-for graph and its depth-first search, `LockDeadlock` sets what the
detector reports against what a deadlock is, `LockProgress` shows who can still go on. `LockCalls` says how every
call ends, on modes, isolation levels and held locks; `LockIsolation` what row and table locks give together.
`LockManager` is the imperative lock manager and deadlock detector, each method tied to the state machine.

**Storage.** `HashTable` is the extendible hash table (buckets, directory, splits), `LruK` the replacer
with its two lists, `PoolModel` and `PoolRuns` the buffer pool as a function of its state together with
the disk, `PoolPages` the life of one page in it, `PoolReplacer` its calls to the replacer, `PoolLoss` when it
loses bytes, and `BufferPool` the imperative pool built from an array of pages, the hash table and the replacer.

**Queries.** `Expressions` and `Plans` give expressions and plans their meaning, with SQL's NULL as the
executors treat it. `Joins`, `Ordering` and `TopN` are the executors whose results the rewrite rules
exchange. `Optimizer` has the rules and the order they run in, `Rewriting` the proof that each rule keeps a
plan's meaning, `Passes` the proof for whole passes and for the optimizer, `PassLists` what an optimized plan no
longer contains. `JoinRows` says which rows joins and filters give. `Aggregates` and `AggregatePlanner` are the
two-phase planning of aggregate queries, `AggregateMeaning` what operators and aggregates compute, `PlannerTypes`
which queries can be planned.

A plan can have several outputs, because sorting leaves equal rows in any order; a rule is right when the new
plan has exactly the outputs of the old one.

Where the code and its documentation disagree the model follows the code:

- An upgrade to an incompatible mode throws UPGRADE_CONFLICT, not INCOMPATIBLE_UPGRADE
  (`LockRuns.UpgradeRefusedIff`).
- Unlocking a table is refused only when its rows are locked in both modes (`LockRuns.UnlockTableRefusedIff`,
  and a run that unlocks a table under a locked row: `LockRuns.TableUnlockedUnderItsRows`). Rows are then not
  isolated any more (`LockIsolation.EarlyUnlockBreaksIsolation`).
- The deadlock victim is the largest id on the search path, not the newest transaction in the cycle
  (`WaitsFor.VictimOnCycleIff`, `WaitsFor.VictimNeedNotBeOnCycle`).
- The detector draws edges to holders that do not conflict, so it can abort a transaction of no deadlock
  (`LockDeadlock.AlarmWithoutDeadlock`, and exactly when: `LockDeadlock.VictimInDeadlockIff`); it misses no deadlock
  (`LockDeadlock.DeadlockIsDetected`).
- Frames with at least k accesses are evicted by last access, not by k-th previous access
  (`LruK.DocumentedVictimIff`, `LruK.DistanceIsNotTheRule`). Among frames with fewer accesses the code follows the
  comment of `Evict` (earliest first access), not the class comment (least recently used): `LruK.EvictsClassicIff`,
  `LruK.FirstAccessIsNotLastAccess`.
- A sort on an indexed column becomes an index scan that names neither table nor key, so the executor finds no
  table and there is no output (`Passes.OrderByPassKeepsIff`, `Passes.OrderByPassLosesTheSort`).
- SUM starts again when a sum on the way is the integer that stands for NULL (`AggregateMeaning.SumIsTotalIff`,
  `AggregateMeaning.SumStartsAgain`), and COUNT of no values is NULL (`AggregateMeaning.CountCounts`).
- Joins and scans read a NULL predicate as true, filters as false (`Joins.ScanKeepsRowsIff`,
  `Joins.MergeBreaksScan`, `Joins.MergeKeepsRowsIff`, `Joins.NullKeyMatchesEverything`).

The lock manager's steps are atomic sections under its latches; a wait on a condition variable is a sleep
followed later by a wake-up step. The detector reads all queues in one step. Disk, clock, catalog, table heap
and B+ tree are parameters: a disk is a map of bytes, an index is a lookup function that is assumed to give
the matching rows in scan order.

## Model

| member | source | states |
|---|---|---|
| `LockQueue.CheckGrant` | src/concurrency/lock_manager.cpp:465-534 | accepts a waiting request exactly when its mode is compatible with every request ahead of it, granted or waiting; it never looks behind |
| `LockQueue.CompatibleIff` | src/concurrency/lock_manager.cpp:465-534 | two modes are compatible if and only if nothing one lets its holder do (read or write all, read or write parts) clashes with what the other does, and if and only if the pair is in a literal list |
| `LockQueue.GrantKeepsAgreementIff` | src/concurrency/lock_manager.cpp:465-534 | granting a request that passed the check keeps all grants pairwise compatible if and only if it also agrees with the grants behind it |
| `LockQueue.GrantKeepsOrder` | src/concurrency/lock_manager.cpp:465-534 | the check is enough to keep the inductive property "every grant is compatible with everything ahead of it" |
| `LockQueue.UpgradeKeepsOrderIff` | src/concurrency/lock_manager.cpp:112-125 | putting an upgrade ahead of the first waiting request keeps that property if and only if the new mode agrees with the grants behind the insertion point |
| `LockQueue.AppendKeepsOrder` | src/concurrency/lock_manager.cpp:136-154 | a new waiting request at the end keeps it |
| `LockQueue.EraseKeepsOrder` | src/concurrency/lock_manager.cpp:187-223 | removing a request keeps it |
| `LockProtocol.SleeperIsQueued` | src/concurrency/lock_manager.cpp:136-154 | a sleeping transaction has an ungranted request in the queue it sleeps on |
| `LockInvariants.AddLockExact` | src/concurrency/lock_manager.cpp:535-622 | recording a grant changes the lock sets at one resource and one mode only |
| `LockInvariants.DeleteLockExact` | src/concurrency/lock_manager.cpp:535-622 | erasing a grant takes out exactly that resource and mode and leaves no empty row entry |
| `LockInvariants.RequestLockKeepsInv` | src/concurrency/lock_manager.cpp:54-160 | a lock call, in every branch, keeps one request per transaction and queue, the sleep record, the upgrade marker and the lock sets in step, and changes requests of the caller in the requested mode only |
| `LockInvariants.WakeIsLocal` | src/concurrency/lock_manager.cpp:128-160 | a wake-up, whether it grants, sleeps on or gives up as aborted (upgrades included), touches one queue and one transaction and clears the upgrade marker it owned |
| `LockInvariants.ReleaseKeepsInv` | src/concurrency/lock_manager.cpp:175-226 | an unlock keeps the same invariant and adds no request |
| `LockInvariants.ApplyKeepsInv` | src/concurrency/lock_manager.cpp:21-402 | every step of the lock manager keeps the whole invariant and leaves every other transaction untouched |
| `LockRuns.RunKeepsInv` | src/concurrency/lock_manager.cpp:21-402 | the invariant holds after every run |
| `LockRuns.LockSetsMatchQueues` | src/concurrency/lock_manager.cpp:535-622 | in every reachable state a table or row is in a transaction's set for a mode if and only if its queue holds a granted request of that transaction in that mode; one request per transaction and queue; at most one pending upgrade per queue |
| `LockRuns.UpgradeRefusedIff` | src/concurrency/lock_manager.cpp:54-89 | a request is refused with UPGRADE_CONFLICT if and only if the transaction has the resource in another mode and an upgrade is pending or the documented table of upgrades does not list this one; INCOMPATIBLE_UPGRADE is never thrown |
| `LockCalls.CheckLockIff` | src/concurrency/lock_manager.cpp:404-463 | which isolation level may lock which mode in which phase, as a literal table, and which reason is thrown otherwise |
| `LockCalls.RowLockRefusedIff` | src/concurrency/lock_manager.cpp:623-643 | after every run a row lock call that passes that check is refused for a missing table lock if and only if the transaction holds the table in none of IS, IX, S, X (for S) or IX, SIX, X (for X) |
| `LockCalls.RequestVerdict` | src/concurrency/lock_manager.cpp:54-160 | every lock request returns, sleeps or throws by what the transaction has on the resource and what clashes ahead, and leaves it with the lock, a place in the queue, or what it had |
| `LockCalls.WakeVerdict` | src/concurrency/lock_manager.cpp:128-160 | a sleeper that wakes gives up if and only if it was aborted, and is granted its lock if and only if nothing ahead clashes with it |
| `LockCalls.UnlockVerdict` | src/concurrency/lock_manager.cpp:163-227 | after every run an unlock succeeds if and only if there is a lock to give back and the row check does not fire; the reasons otherwise |
| `LockCalls.PhaseAfterRelease` | src/concurrency/lock_manager.cpp:187-211 | an unlock ends the growing phase exactly for S and X under REPEATABLE_READ and for X under the other levels |
| `LockRuns.UnlockTableRefusedIff` | src/concurrency/lock_manager.cpp:163-184 | unlocking a table is refused for locked rows if and only if the transaction holds rows of it in both modes, which is less than the documentation asks |
| `LockRuns.TableUnlockedUnderItsRows` | src/concurrency/lock_manager.cpp:163-184 | a legal run of four steps after which the transaction holds a row in X and no lock on its table |
| `LockRuns.StepKeepsAgreementIff` | src/concurrency/lock_manager.cpp:102-154 | one step keeps all grants pairwise compatible if and only if it grants nothing that conflicts with a grant behind it |
| `LockRuns.GrantsAgreeThroughoutIff` | src/concurrency/lock_manager.cpp:102-154 | over a whole run the grants agree at every moment if and only if no step makes such a grant |
| `LockRuns.SafeUpgradesKeepAgreement` | src/concurrency/lock_manager.cpp:102-154 | if every upgrade starts with no conflicting grant behind the first waiter, all grants in all queues are pairwise compatible at every moment of the run |
| `LockCalls.HoldersDoNotClash` | src/concurrency/lock_manager.cpp:465-534 | over every run with safe upgrades no two transactions hold locks on one resource that let them do things that clash |
| `LockRuns.UnsafeUpgradeBreaksAgreement` | src/concurrency/lock_manager.cpp:102-125 | a run of seven steps after which X and IS are held on one table together |
| `LockRuns.PhaseNeverReturns` | src/concurrency/lock_manager.cpp:187-211 | no step brings a transaction back to its growing phase or changes its isolation level |
| `LockRuns.NoAcquisitionAfterRelease` | src/concurrency/lock_manager.cpp:404-463 | after a REPEATABLE_READ transaction releases S or X none of its later lock calls in the run succeeds; after a READ_COMMITTED one releases X only S and IS succeed |
| `LockRuns.ReadUncommittedTakesNoSharedLocks` | src/concurrency/lock_manager.cpp:404-463 | a READ_UNCOMMITTED transaction never holds or waits for S, IS or SIX, so unlocking never throws for a shared lock |
| `LockIsolation.RowsAreIsolated` | src/concurrency/lock_manager.cpp:229-349 | over every run with safe upgrades in which no table is unlocked under rows still locked: a row that one transaction at work may write, by a lock on the row or on its table, no other may read or write |
| `LockIsolation.StepKeepsCovered` | src/concurrency/lock_manager.cpp:623-643 | each step keeps every row request under a table request in a fitting mode, upgrades that wait included |
| `LockIsolation.EarlyUnlockBreaksIsolation` | src/concurrency/lock_manager.cpp:163-184 | a run of six steps after which one transaction may write a row that another may read |
| `LockRuns.DetectionIsComplete` | src/concurrency/lock_manager.cpp:762-797 | a nonempty set of sleepers, none grantable and blocked only by grants inside the set, always puts a cycle in the graph and the search finds a victim |
| `LockRuns.StandstillIsDetected` | src/concurrency/lock_manager.cpp:762-797 | in a reachable state where every lock holder sleeps and no waiting request is grantable, the chosen victim is one of the sleepers |
| `LockDeadlock.StepKeepsDeadlock` | src/concurrency/lock_manager.cpp:128-154 | a set of sleepers each behind a conflicting request of the set stays so through every step that does not pick a victim from it |
| `LockDeadlock.DeadlockIsForever` | src/concurrency/lock_manager.cpp:128-154 | over every continuation of a run, until a member is picked as victim, every member of such a set stays asleep |
| `LockDeadlock.DeadlockIsDetected` | src/concurrency/lock_manager.cpp:762-797 | whenever there is such a set the search names a victim, and one round of the detector aborts a member of the set |
| `LockDeadlock.DeadlockIffConflictCycle` | src/concurrency/lock_manager.cpp:465-534 | there is such a set if and only if the graph of conflicts with requests ahead has a cycle |
| `LockDeadlock.InDeadlockIff` | src/concurrency/lock_manager.cpp:465-534 | a transaction is in such a set if and only if it reaches a cycle of that graph |
| `LockDeadlock.VictimInDeadlockIff` | src/concurrency/lock_manager.cpp:762-797 | whatever is in a deadlock reaches a cycle of the detector's graph, as the victim does; the victim is in a deadlock if and only if it also reaches a cycle of conflicts |
| `LockDeadlock.AlarmWithoutDeadlock` | src/concurrency/lock_manager.cpp:762-797 | a legal run after which the search names a victim though no set of transactions is deadlocked, and two more steps without a victim grant the waiting lock |
| `LockProgress.CanGoOnIff` | src/concurrency/lock_manager.cpp:128-160 | after every run, a sleeping call whose transaction was not aborted can still return true in some continuation without victims if and only if the transaction is in no deadlock |
| `LockProgress.FreeSleeperGoesOn` | src/concurrency/lock_manager.cpp:128-226 | the continuation, built from wake-ups and unlocks (rows before their table) |
| `LockProgress.StuckNeverGoesOn` | src/concurrency/lock_manager.cpp:128-160 | no continuation without victims lets a call of a deadlocked transaction return true |
| `LockProgress.RoundLetsEverybodyGoOn` | src/concurrency/lock_manager.cpp:809-867 | after the detector has aborted the victims of one round no deadlock stands and every sleeper it left can go on without further victims |
| `WaitsFor.HasCycleIffCyclic` | src/concurrency/lock_manager.cpp:701-737 | the search reports a cycle if and only if the graph has one, whatever the order of edges |
| `WaitsFor.VictimIsMaxOfTrail` | src/concurrency/lock_manager.cpp:701-737 | the victim is the largest id on the trail that starts at the least key that reaches a cycle and always goes to the first successor that does; the graph alone fixes the trail, and it ends in a cycle |
| `WaitsFor.VictimOnCycleIff` | src/concurrency/lock_manager.cpp:701-737 | the victim is on a cycle if and only if every id of the trail that is on no cycle is smaller than some id of the trail that is |
| `WaitsFor.VictimOnCycleIfNoTails` | src/concurrency/lock_manager.cpp:701-737 | in a graph where everything that reaches a cycle is on one, the victim is on one |
| `WaitsFor.VictimNeedNotBeOnCycle` | src/concurrency/lock_manager.cpp:701-737 | a four-node graph whose victim is on no cycle, against the interface comment |
| `WaitsFor.DfsNone` | src/concurrency/lock_manager.cpp:701-737 | a search that returns -1 proves that no walk from the node comes back to the path, repeats a node or reaches a cycle |
| `WaitsFor.DfsSome` | src/concurrency/lock_manager.cpp:701-737 | a search that returns an id exhibits a walk that closes on itself, goes from node to node by the first successor that reaches a cycle, and of which the id is the maximum |
| `WaitsFor.DetectionBreaksEveryCycle` | src/concurrency/lock_manager.cpp:812-867 | the victim loop ends, the remaining graph has no cycle, and its edges are exactly the old edges between non-victims |
| `WaitsFor.TrappedSetIsCyclic` | src/concurrency/lock_manager.cpp:762-797 | a finite nonempty set of nodes each with an edge inside the set contains a cycle |
| `LockManagerImpl.LockManager.Request` | src/concurrency/lock_manager.cpp:54-160 | the state after a lock request, case by case, is the protocol's |
| `LockManagerImpl.LockManager.Upgrade` | src/concurrency/lock_manager.cpp:102-125 | the upgrade branch reaches the protocol's state: old request and old lock record gone, new one ahead of the waiters |
| `LockManagerImpl.LockManager.GrantOrSleep` | src/concurrency/lock_manager.cpp:128-154 | grants and records, or sleeps, as the protocol's settling step |
| `LockManagerImpl.LockManager.LockTable` | src/concurrency/lock_manager.cpp:21-161 | outcome and state of a table lock call, exceptions included, are the protocol's, and the invariant is kept |
| `LockManagerImpl.LockManager.LockRow` | src/concurrency/lock_manager.cpp:229-349 | outcome and state of a row lock call, exceptions included, are the protocol's, and the invariant is kept |
| `LockManagerImpl.LockManager.WakeUp` | src/concurrency/lock_manager.cpp:128-160 | outcome and state when a sleeper is woken are the protocol's, and the invariant is kept |
| `LockManagerImpl.LockManager.ReleaseLock` | src/concurrency/lock_manager.cpp:175-226 | outcome and state of releasing one lock |
| `LockManagerImpl.LockManager.UnlockTable` | src/concurrency/lock_manager.cpp:163-227 | outcome and state of a table unlock are the protocol's, and the invariant is kept |
| `LockManagerImpl.LockManager.UnlockRow` | src/concurrency/lock_manager.cpp:351-402 | outcome and state of a row unlock are the protocol's, and the invariant is kept |
| `LockManagerImpl.LockManager.AddEdge` | src/concurrency/lock_manager.cpp:645-665 | adds exactly one edge, once, and keeps the graph well formed |
| `LockManagerImpl.LockManager.RemoveEdge` | src/concurrency/lock_manager.cpp:678-699 | removes one edge, and the node with its last edge |
| `LockManagerImpl.LockManager.Dfs` | src/concurrency/lock_manager.cpp:701-724 | the recursive search with its path set restored on return |
| `LockManagerImpl.LockManager.HasCycle` | src/concurrency/lock_manager.cpp:701-737 | returns true if and only if the graph has a directed cycle, with the specified victim, and leaves the path set empty on failure |
| `LockManagerImpl.LockManager.BuildGraph` | src/concurrency/lock_manager.cpp:762-797 | the edges are exactly the pairs (waiting request, granted request) of one queue, over all table and row queues |
| `LockManagerImpl.LockManager.RemoveNode` | src/concurrency/lock_manager.cpp:819-839 | takes out a victim with every edge from and into it |
| `LockManagerImpl.LockManager.BreakCycles` | src/concurrency/lock_manager.cpp:809-867 | aborts exactly the victims of the graph, in order, and stops with the residual graph |
| `LockManagerImpl.LockManager.RunCycleDetection` | src/concurrency/lock_manager.cpp:753-870 | one round aborts only sleeping transactions, a member of every deadlock among them, ends with an acyclic graph and no standing deadlock, touches neither queues nor sleepers, and keeps the invariant |
| `ExtendibleHash.Bucket.Find` | src/container/hash/extendible_hash_table.cpp:224-244 | finds the value of a key if and only if the bucket holds it |
| `ExtendibleHash.Bucket.Remove` | src/container/hash/extendible_hash_table.cpp:247-263 | takes out exactly the pairs of one key |
| `ExtendibleHash.Bucket.Insert` | src/container/hash/extendible_hash_table.cpp:266-292 | a full bucket refuses and is unchanged; otherwise the key is updated or appended and no other pair changes |
| `ExtendibleHash.ExtendibleHashTable.constructor` | src/container/hash/extendible_hash_table.cpp:25-31 | an empty map: global depth 0, one bucket, one directory slot, local depth 0, no items |
| `ExtendibleHash.ExtendibleHashTable.Find` | src/container/hash/extendible_hash_table.cpp:92-97 | lookup in the abstract map |
| `ExtendibleHash.ExtendibleHashTable.Remove` | src/container/hash/extendible_hash_table.cpp:100-105 | removal from the abstract map; the directory is untouched |
| `ExtendibleHash.ExtendibleHashTable.DoubleDirectory` | src/container/hash/extendible_hash_table.cpp:118-128 | doubling keeps every invariant and every key's bucket |
| `ExtendibleHash.ExtendibleHashTable.Distribute` | src/container/hash/extendible_hash_table.cpp:140-149 | parts the items of a bucket by one hash bit; no insertion is refused, so none is lost |
| `ExtendibleHash.ExtendibleHashTable.Redirect` | src/container/hash/extendible_hash_table.cpp:155-164 | exactly the slots of the split bucket are redirected, by their own bit |
| `ExtendibleHash.ExtendibleHashTable.Split` | src/container/hash/extendible_hash_table.cpp:130-164 | keeps the sharing rule, the bucket count, every stored pair and the placement of every key |
| `ExtendibleHash.ExtendibleHashTable.BucketHoldsSameBits` | src/container/hash/extendible_hash_table.cpp:53-56 | a key's bucket holds exactly the stored keys that agree with it on the bucket's local-depth bits |
| `ExtendibleHash.ExtendibleHashTable.MakeRoom` | src/container/hash/extendible_hash_table.cpp:111-165 | the split loop ends whenever some number of low bits separates the new key from all but fewer than bucket_size stored keys |
| `ExtendibleHash.ExtendibleHashTable.OtherwiseAlwaysFull` | src/container/hash/extendible_hash_table.cpp:111-165 | if no number of bits does, the key's bucket is full in every valid table with these contents, so the loop never ends |
| `ExtendibleHash.ExtendibleHashTable.Insert` | src/container/hash/extendible_hash_table.cpp:108-173 | the abstract map gains exactly the pair, through any number of splits |
| `ExtendibleHash.FreshHashIsSparse` | src/container/hash/extendible_hash_table.cpp:111-165 | a key whose hash differs from every stored one always meets the termination condition |
| `LruK.AccessMatches` | src/buffer/lru_k_replacer.cpp:54-79 | an access keeps the two lists ordered as the access history demands |
| `LruK.SetEvictableMatches` | src/buffer/lru_k_replacer.cpp:81-95 | changing evictability keeps lists and size in step with the history |
| `LruK.DropMatches` | src/buffer/lru_k_replacer.cpp:97-112 | forgetting a frame keeps them in step |
| `LruK.EvictMatches` | src/buffer/lru_k_replacer.cpp:19-52 | fails if and only if nothing is evictable; otherwise takes the evictable frame with fewer than k accesses whose first access is oldest, else the one whose last access is oldest |
| `LruK.VictimIsUnique` | src/buffer/lru_k_replacer.cpp:19-52 | no history names two victims |
| `LruK.ReplacerFollowsHistory` | src/buffer/lru_k_replacer.cpp:19-114 | over every run of calls the replacer answers as the access history demands, and its size is the number of evictable frames |
| `LruK.DocumentedVictimIff` | src/buffer/lru_k_replacer.cpp:19-52 | the victim is the one the documentation of Evict names (largest backward k-distance) if and only if some evictable frame has fewer than k accesses, or one frame is oldest both by last and by k-th previous access |
| `LruK.EvictsDocumentedIff` | src/buffer/lru_k_replacer.cpp:19-79 | the same for the frame the replacer evicts after any run of calls |
| `LruK.DistanceIsNotTheRule` | src/buffer/lru_k_replacer.cpp:19-52 | a run of four accesses with k = 2 after which frame 2 is evicted and the documentation names frame 1 |
| `LruK.EvictsClassicIff` | src/buffer/lru_k_replacer.cpp:19-79 | the evicted frame is the one the comment of the class names (least recently used among frames with fewer than k accesses) if and only if one such frame is oldest both by first and by last access, or without such frames oldest by last and by k-th previous access; with k = 2 it always is among such frames |
| `LruK.FirstAccessIsNotLastAccess` | src/buffer/lru_k_replacer.cpp:54-79 | a run of three accesses with k = 3 after which frame 1 is evicted though frame 2 is the least recently used |
| `LruK.LRUKReplacer.constructor` | src/buffer/lru_k_replacer.cpp:17 | an empty replacer |
| `LruK.LRUKReplacer.Evict` | src/buffer/lru_k_replacer.cpp:19-52 | the backward scans of the two lists compute the model's eviction |
| `LruK.LRUKReplacer.RecordAccess` | src/buffer/lru_k_replacer.cpp:54-79 | computes the model's access step, out-of-range frames rejected |
| `LruK.LRUKReplacer.SetEvictable` | src/buffer/lru_k_replacer.cpp:81-95 | computes the model's step |
| `LruK.LRUKReplacer.Remove` | src/buffer/lru_k_replacer.cpp:97-112 | computes the model's step, with the exception for a frame that is not evictable |
| `LruK.LRUKReplacer.Size` | src/buffer/lru_k_replacer.cpp:114 | the number of evictable frames |
| `PoolModel.FindVictimFailsIff` | src/buffer/buffer_pool_manager_instance.cpp:172-187 | no frame is found if and only if every frame is pinned, and then nothing changes |
| `PoolModel.EvictionKeepsBytesIff` | src/buffer/buffer_pool_manager_instance.cpp:172-187 | evicting keeps the bytes of every page if and only if the victim is flagged dirty or equals its copy on disk |
| `PoolRuns.NewPageCorrect` | src/buffer/buffer_pool_manager_instance.cpp:47-65 | in every consistent pool a new page is the next id with zeroed bytes in an unpinned frame, the other frames untouched, and it fails if and only if all frames are pinned; if nothing was unsaved every other page reads as before |
| `PoolRuns.FetchPageCorrect` | src/buffer/buffer_pool_manager_instance.cpp:67-96 | in every consistent pool a fetch presents the bytes the page reads as and leaves the other frames alone, and it fails if and only if the page is not resident and all frames are pinned; if nothing was unsaved no page changes |
| `PoolRuns.FetchShapeIff` | src/buffer/buffer_pool_manager_instance.cpp:67-96 | a fetch leaves the pool consistent if and only if the id was handed out or the fetch fails |
| `PoolRuns.EarlyFetchDuplicates` | src/buffer/buffer_pool_manager_instance.cpp:47-96 | fetching an id before it is handed out, then asking for a new page, puts the same page id into two frames |
| `PoolRuns.UnpinPageCorrect` | src/buffer/buffer_pool_manager_instance.cpp:98-116 | never changes what pages read as; leaves nothing to lose if and only if the last unpin of a changed, unflagged page passes is_dirty; returns true if and only if the page was pinned |
| `PoolRuns.WriteBackCorrect` | src/buffer/buffer_pool_manager_instance.cpp:118-130 | writing a page back makes disk and frame equal and changes no page |
| `PoolRuns.FlushFramesCorrect` | src/buffer/buffer_pool_manager_instance.cpp:132-141 | flush-all makes every resident page equal to its disk copy and changes nothing else |
| `PoolRuns.DeletePageCorrect` | src/buffer/buffer_pool_manager_instance.cpp:143-167 | frees the frame of an unpinned page, keeps every page's bytes, and refuses if and only if the page is pinned |
| `PoolPages.StepMoves` | src/buffer/buffer_pool_manager_instance.cpp:47-187 | for every page and operation: pin count, dirty flag and residence before and after, and the reply of the call |
| `PoolPages.PinsAreBalanced` | src/buffer/buffer_pool_manager_instance.cpp:47-116 | over every run the pin count of a page is the number of calls that handed it out minus the number that took it back |
| `PoolPages.FlushPageCorrect` | src/buffer/buffer_pool_manager_instance.cpp:118-130 | a flush succeeds if and only if the page is resident; it puts the page's bytes and nothing else on disk and clears the flag |
| `PoolPages.FlushedStaysOnDisk` | src/buffer/buffer_pool_manager_instance.cpp:118-141 | over every run, after a flush of the page or of all pages the disk alone holds the bytes the page had, until the next write to it |
| `PoolPages.FlushedMapIsOnDisk` | src/buffer/buffer_pool_manager_instance.cpp:118-141 | in careful runs these are the bytes of the map |
| `PoolReplacer.ReplacerHasSeenTheRun` | src/buffer/buffer_pool_manager_instance.cpp:47-187 | over every run the replacer is in the state that the accesses, pins, unpins, deletes and evictions of the run put it in, one by one |
| `PoolReplacer.EvictsByTheRunsAccesses` | src/buffer/buffer_pool_manager_instance.cpp:172-187 | over every run the frame taken for another page is the one the history of these accesses names |
| `PoolRuns.StepRefinesMap` | src/buffer/buffer_pool_manager_instance.cpp:47-167 | each operation on pool and disk is one operation on the map from page id to bytes |
| `PoolRuns.PoolRefinesMap` | src/buffer/buffer_pool_manager_instance.cpp:47-187 | after every careful run, whatever was evicted, pool and disk together are that map |
| `PoolRuns.FetchReadsLastWrite` | src/buffer/buffer_pool_manager_instance.cpp:67-96 | after every careful run a fetch of an allocated page gives the bytes last written to it, or fails exactly when it must |
| `PoolLoss.StepIsMapStepIff` | src/buffer/buffer_pool_manager_instance.cpp:47-187 | in every consistent pool one operation is the map's operation if and only if it gives up no frame whose page is neither flagged dirty nor equal to its disk copy |
| `PoolLoss.PoolIsTheMapIff` | src/buffer/buffer_pool_manager_instance.cpp:47-187 | over all runs, careful or not, pool and disk are the map at every moment if and only if no eviction or delete takes an unsaved page |
| `PoolLoss.CarefulNeverLoses` | src/buffer/buffer_pool_manager_instance.cpp:98-116 | users who pass is_dirty for what they wrote never lose bytes |
| `PoolLoss.CarelessRunLoses` | src/buffer/buffer_pool_manager_instance.cpp:98-187 | a run of four operations on one frame after which written bytes are gone, because the unpin said the page was clean |
| `PoolRuns.PinnedPageStays` | src/buffer/buffer_pool_manager_instance.cpp:98-116 | in every consistent pool and through every operation a pinned page keeps its frame, and only its own unpins lower its pin count, each by one |
| `PoolRuns.PinsOutlastUnpins` | src/buffer/buffer_pool_manager_instance.cpp:98-116 | over every run, careful or not, a pinned page stays pinned in its frame through any continuation that unpins it fewer times than its count |
| `PoolRuns.FrameKeptUntilLastUnpin` | src/buffer/buffer_pool_manager_instance.cpp:98-116 | over every run the frame is the same up to and including the unpin that takes the count to zero |
| `PoolRuns.FramesAreConserved` | src/buffer/buffer_pool_manager_instance.cpp:47-116 | every frame is in exactly one of free, evictable, pinned, and the three counts add up to the pool size |
| `BufferPool.PageTableHasRoom` | src/buffer/buffer_pool_manager_instance.cpp:63-94 | inserting an absent page id always meets the hash table's termination condition |
| `BufferPool.BufferPoolManagerInstance.constructor` | src/buffer/buffer_pool_manager_instance.cpp:20-39 | all frames free, empty page table, replacer and disk image |
| `BufferPool.BufferPoolManagerInstance.TakeVictim` | src/buffer/buffer_pool_manager_instance.cpp:172-187 | finds the model's victim frame and writes it back if dirty |
| `BufferPool.BufferPoolManagerInstance.NewPg` | src/buffer/buffer_pool_manager_instance.cpp:47-65 | the concrete pool (array, hash table, replacer, free list) moves to the model's next state and stays valid |
| `BufferPool.BufferPoolManagerInstance.FetchPg` | src/buffer/buffer_pool_manager_instance.cpp:67-96 | likewise for a fetch, of ids never handed out too; the pool stays valid if and only if the id was handed out or the fetch fails |
| `BufferPool.BufferPoolManagerInstance.UnpinPg` | src/buffer/buffer_pool_manager_instance.cpp:98-116 | likewise for an unpin |
| `BufferPool.BufferPoolManagerInstance.FlushPg` | src/buffer/buffer_pool_manager_instance.cpp:118-130 | likewise for a flush |
| `BufferPool.BufferPoolManagerInstance.FlushAllPgs` | src/buffer/buffer_pool_manager_instance.cpp:132-141 | likewise for the flush loop |
| `BufferPool.BufferPoolManagerInstance.DeletePg` | src/buffer/buffer_pool_manager_instance.cpp:143-167 | likewise for a delete |
| `Expressions.RewriteSucceedsIff` | src/optimizer/merge_filter_nlj.cpp:21-40 | rewriting is refused exactly when some column is not a column of the joined row |
| `Expressions.RewritePreservesValue` | src/optimizer/merge_filter_nlj.cpp:21-40 | on every pair of rows the rewritten expression has the value the original has on the joined row, NULLs included |
| `Joins.NestedLoopJoinExecutor.Init` | src/execution/nested_loop_join_executor.cpp:32-76 | the result queue is the join of the two inputs in left-major order, unmatched left rows padded with typed NULLs in a left join |
| `Joins.NestedLoopJoinExecutor.Next` | src/execution/nested_loop_join_executor.cpp:78-84 | gives the queued rows in order |
| `JoinRows.JoinedRowsIff` | src/execution/nested_loop_join_executor.cpp:32-76 | a row is in the nested-loop join if and only if it is a pair the predicate reads true on, or in a left join a left row without such a pair, followed by a NULL of each right column's type |
| `JoinRows.FilteredRowsIff` | src/execution/filter_executor.cpp:16-33 | a filter keeps the rows on which its predicate is not NULL and reads true, a scan the rows on which it reads true |
| `Joins.NestedIndexJoinExecutor.Init` | src/execution/nested_index_join_executor.cpp:26-69 | the result queue is, left row by left row, what the index finds for its key, padded in a left join |
| `Joins.IndexJoinIsNestedLoopJoin` | src/execution/nested_index_join_executor.cpp:33-68 | with a faithful index and no NULL comparison, index join and nested-loop join on column = column give the same rows in the same order, INNER and LEFT, both operand orders |
| `Joins.IndexJoinSameIff` | src/execution/nested_index_join_executor.cpp:33-68 | with an index that finds what compares equal (nothing for NULL) the index join never gives more rows, and gives the same rows in the same order if and only if every left row has no NULL comparison, or a left join pads it where its only match was that padding |
| `Joins.NullKeyMatchesEverything` | src/execution/nested_loop_join_executor.cpp:48-60 | a left row with a NULL key is joined with every right row, since the NULL boolean reads as true |
| `Joins.MergeKeepsRowsIff` | src/optimizer/merge_filter_nlj.cpp:66-74 | moving a filter into a constant-true join keeps rows and order if and only if the filter is NULL on no pair and, for LEFT, every left row keeps one of its rows |
| `Joins.MergeBreaksLeftJoin` | src/optimizer/merge_filter_nlj.cpp:66-74 | a LEFT join ON TRUE where the merge brings a filtered-out row back |
| `Joins.ScanKeepsRowsIff` | src/optimizer/merge_filter_scan.cpp:23-33 | moving a filter into a scan keeps the rows if and only if the filter is NULL on no row (the scan has no NULL test) |
| `Joins.MergeBreaksScan` | src/optimizer/merge_filter_scan.cpp:23-33 | a row on which the predicate is NULL: the filter drops it, the scan with the filter merged in keeps it |
| `Joins.FilterIsLookup` | src/optimizer/optimizer_custom_rules.cpp:44-57 | the rows a filter column = constant keeps are the rows equal to the constant, in scan order |
| `Optimizer.MatchIndex` | src/optimizer/nlj_as_index_join.cpp:24-33 | finds an index if and only if one has exactly the one key column, and returns the id of the first such index |
| `Optimizer.MatchName` | src/optimizer/order_by_index_scan.cpp:58-70 | finds an index if and only if one has a single key column that carries the name of the sort column, and returns the id of the first such index |
| `Rewriting.OutputFitsSchema` | src/execution/plan_node.cpp:25-34 | every output of a plan whose schemas describe their children has rows of the schema's width |
| `Rewriting.MergeProjectionKeeps` | src/optimizer/merge_projection.cpp:12-55 | replacing an identity projection by its child gives exactly the same outputs |
| `Rewriting.MergeFilterNLJKeeps` | src/optimizer/merge_filter_nlj.cpp:49-99 | the rule never fails on such plans and gives exactly the same outputs |
| `Rewriting.NLJAsIndexJoinKeeps` | src/optimizer/nlj_as_index_join.cpp:35-91 | the rule gives exactly the same outputs, for either operand order |
| `Rewriting.FilterAsIndexScanKeeps` | src/optimizer/optimizer_custom_rules.cpp:29-64 | the rule gives exactly the same outputs, NULLs in the column included when the key is not NULL |
| `Rewriting.MergeFilterScanKeeps` | src/optimizer/merge_filter_scan.cpp:15-37 | the rule gives exactly the same outputs |
| `Rewriting.SortLimitAsTopNKeeps` | src/optimizer/sort_limit_as_topn.cpp:15-23 | TopN over the sort has exactly the outputs of limiting the sort |
| `Passes.PassKeeps` | src/optimizer/optimizer_custom_rules.cpp:29-64 | a pass of any rule but the order-by rule over a plan of any size never fails and keeps the set of outputs, the types and the side conditions of the next pass |
| `Passes.PassesKeepMeaning` | src/optimizer/optimizer_custom_rules.cpp:16-27 | any sequence of passes that fills scans last, the order-by pass only where no scanned table has an index on a sort column, keeps exactly the set of outputs |
| `Passes.PassIsNormal` | src/optimizer/merge_projection.cpp:12-17 | a pass leaves, at any depth, nothing its rule could rewrite: no identity projection, no filter over a constant-true join, no equi-join or equality filter with a usable index, no limit over a sort, no sort on an indexed scan, no filter over a bare scan |
| `Passes.OrderByPassKeepsIff` | src/optimizer/order_by_index_scan.cpp:24-75 | for every plan with an output the order-by pass keeps the outputs if and only if there is nothing in the plan it rewrites |
| `Passes.OrderByPassLosesTheSort` | src/optimizer/order_by_index_scan.cpp:24-75 | a sorted scan of a one-row table with an index: one output before the pass, none after it |
| `Passes.OptimizeKeepsMeaningIff` | src/optimizer/optimizer.cpp:8-23 | both rule lists of the optimizer, every pass included, never fail; on a plan with an output they keep exactly the set of outputs if and only if the order-by pass finds nothing to rewrite behind the first three passes |
| `Passes.OptimizeKeepsMeaning` | src/optimizer/optimizer.cpp:8-23 | both rule lists keep exactly the set of outputs of a plan none of whose scanned tables has an index on a sort column |
| `PassLists.OptimizeLeavesNothing` | src/optimizer/optimizer_custom_rules.cpp:16-27 | after either rule list, at any depth: no identity projection, no filter over a constant-true join, no equi-join or ascending sort over a bare scan with a fitting index, no limit over a sort, no filter over a bare scan, and by the custom list no scan with a filter an index could answer |
| `PassLists.PassKeepsClean` | src/optimizer/optimizer_custom_rules.cpp:16-27 | a pass brings back nothing that the passes before it in the lists have removed |
| `PassLists.TrueJoinTakesFilter` | src/optimizer/merge_filter_nlj.cpp:49-99 | a filter over a join ON TRUE is merged |
| `PassLists.EquiJoinUsesIndex` | src/optimizer/nlj_as_index_join.cpp:35-91 | an equi-join over a scan with an index on the right column becomes an index join on the left column, whichever side it was written on |
| `PassLists.OrderByRewritesIff` | src/optimizer/order_by_index_scan.cpp:31-70 | the order-by rule rewrites a node if and only if it sorts one column, not descending, over a scan whose table has an index named after it |
| `Ordering.ComparatorIsStrictWeakOrder` | src/execution/sort_executor.cpp:18-32 | on rows whose keys are comparable and not NULL the comparator is irreflexive, asymmetric, transitive, and ties are transitive, for any ASC/DESC list |
| `Ordering.BeforeIff` | src/execution/sort_executor.cpp:18-32 | on any two rows the comparator puts the first ahead if and only if some key decides: all keys before it equal, and there the smaller value, for DESC the greater |
| `Ordering.SortedIff` | src/execution/sort_executor.cpp:18-32 | with one key, rows are sorted if and only if the key never falls along them, for DESC never rises |
| `Ordering.TopIsExtreme` | src/execution/topn_executor.cpp:9-40 | what LIMIT n leaves of a sort has min(n, rows) rows in order, and no row left out has a smaller key, for DESC a greater |
| `Ordering.NullKeysBreakTheOrder` | src/execution/sort_executor.cpp:18-32 | with a NULL key ties are not transitive |
| `TopNExecution.PopTop` | src/execution/topn_executor.cpp:27-38 | takes out one largest row of the heap, any of them on ties |
| `TopNExecution.DropKeepsOrder` | src/execution/topn_executor.cpp:30-35 | after a push and a pop no dropped row comes before a kept one |
| `TopNExecution.TopNExecutor.Push` | src/execution/topn_executor.cpp:31-34 | keeps the n smallest rows seen, every dropped row behind every kept one, and loses no row |
| `TopNExecution.TopNExecutor.Drain` | src/execution/topn_executor.cpp:36-39 | stacking the heap gives a prefix of a sorted arrangement |
| `TopNExecution.TopNExecutor.Init` | src/execution/topn_executor.cpp:9-40 | for any input the rows to be emitted are the first min(n, rows) of some sorted permutation of it |
| `TopNExecution.TopNExecutor.Next` | src/execution/topn_executor.cpp:42-49 | emits them in that order |
| `Aggregates.ColumnIndex` | src/planner/plan_expression.cpp:39-57 | resolves a name if and only if exactly one column carries it, to that column |
| `Aggregates.BinaryMeans` | src/planner/expression_factory.cpp:38-73 | the expression built for an operator evaluates to that operator applied to the operands |
| `AggregateMeaning.OperatorsOnIntegers` | src/planner/expression_factory.cpp:38-73 | what each comparison and arithmetic operator gives on two integers |
| `AggregateMeaning.OperatorsOnNull` | src/planner/expression_factory.cpp:38-73 | a comparison or computation with NULL is NULL |
| `AggregateMeaning.ConnectivesOnTruths` | src/planner/expression_factory.cpp:38-73 | and / or are those of three-valued logic |
| `Aggregates.PseudoCallsPlanAlike` | src/planner/plan_expression.cpp:102-134 | an expression whose calls were replaced by pseudo calls plans exactly as the original does |
| `Aggregates.PlanBoundMeans` | src/planner/plan_expression.cpp:136-166 | a planned expression, however nested, consumes its own calls left to right and evaluates to what the bound expression means |
| `Aggregates.TermMeans` | src/planner/plan_aggregation.cpp:27-45 | the aggregation term planned for a call computes that call over every group |
| `AggregateMeaning.CallsGive` | src/include/execution/executors/aggregation_executor.h:46-120 | count(*), count, sum, min and max of a group are the number of rows, the number of values, their total, a least and a greatest one, and NULL when there is no value |
| `AggregateMeaning.CountCounts` | src/include/execution/executors/aggregation_executor.h:83-91 | COUNT is the number of values that are not NULL, and NULL instead of zero |
| `AggregateMeaning.SumIsTotalIff` | src/include/execution/executors/aggregation_executor.h:92-100 | SUM is the total if and only if no sum on the way is the integer that stands for NULL |
| `AggregateMeaning.SumStartsAgain` | src/include/execution/executors/aggregation_executor.h:92-100 | three integers whose sum SUM gets wrong without overflow |
| `Aggregates.CallColumnsMean` | src/planner/plan_aggregation.cpp:109-132 | column group-by count + k of a group's row holds the value of the k-th call |
| `Aggregates.GroupColumnsMean` | src/planner/plan_aggregation.cpp:134-139 | every name in scope above the aggregation reads the group-by expression or call it names |
| `Aggregates.SecondPhaseMeans` | src/planner/plan_aggregation.cpp:141-158 | HAVING then the select list consume every collected call exactly once, each its own |
| `Aggregates.PlanMeansQuery` | src/planner/plan_aggregation.cpp:80-164 | for every group (the empty one without GROUP BY included) the planned HAVING and select items have the values the query gives them |
| `PlannerTypes.PlanSucceedsIff` | src/planner/plan_aggregation.cpp:80-164 | a query with aggregates can be planned if and only if it is well typed: known operators and functions, unique column names, operand types, no nested or DISTINCT calls |
| `PlannerTypes.PlanBoundTyped` | src/planner/plan_expression.cpp:136-166 | an expression plans if and only if it has a type and enough calls are at hand, and the plan has that type |
| `PlannerTypes.CallNamesDiffer` | src/planner/plan_aggregation.cpp:134-139 | the columns of different calls have different names |
| `AggregatePlanner.Planner.AddAggCallToContext` | src/planner/plan_expression.cpp:102-134 | moves exactly the calls of an expression to the context, in order, and fails on the unsupported kinds |
| `AggregatePlanner.Planner.PlanExpression` | src/planner/plan_expression.cpp:136-166 | computes the specified plan and advances the call counter by the calls consumed |
| `AggregatePlanner.Planner.PlanAggCall` | src/planner/plan_aggregation.cpp:27-45 | computes the specified term and restores the context |
| `AggregatePlanner.Planner.PlanAggregations` | src/planner/plan_aggregation.cpp:109-132 | one term and one column per collected call, in order |
| `AggregatePlanner.Planner.PlanSelectAggregation` | src/planner/plan_aggregation.cpp:80-164 | computes the specified plan, errors included, and restores the caller's context in every case |

## Left out

- Mutexes, condition variables and the detector's thread: the model has atomic steps; holding two latches at once, and the latch still held when UnlockTable or UnlockRow throws, are not modelled.
- The order in which waiting transactions are woken: any enabled step may come next, so that a waiter can go on does not say that it will.
- TransactionManager commit and abort with rollback: they rest on the table heap and the B+ tree.
- Passes.OrderByPassKeepsIff: says nothing about a plan without outputs, where any rewrite is right, and takes an index scan without a table name to have no output.
- Hash join and its rule: the executor has no body and the rule is off.
- RIGHT and OUTER joins: the executors reject them.
- Locks taken and released by scans while they run, and the executors that change tables.
- Types other than BOOLEAN and INTEGER, and casts; comparing values of two types is unknown instead of an assertion failure, and a predicate of type INTEGER in a scan is read instead of rejected by its cast.
- INTEGER arithmetic is unbounded except that the NULL pattern is NULL; signed overflow has no defined result in the source.
- Page ids, timestamps and hash shifts are unbounded; the source's 32-bit masks and counters are not modelled.
- Column references in a join condition (two children) and name resolution in the binder: the planner part covers expressions over one child.
- Disk manager, log, recovery, clock and plain LRU replacers, binder, shell and tools.
- LruK.ReplacerFollowsHistory: is stated for k of at least 2; with k = 1 the second access erases a position of one list from the other, which the library does not define.
- BufferPool.BufferPoolManagerInstance.FetchPg: page ids are not negative; what the disk manager does for INVALID_PAGE_ID is not modelled.
- PoolRuns.PoolRefinesMap: runs fetch only ids that were handed out (`PoolRuns.FetchShapeIff` shows this is exact), write only pages they hold pinned, and pass is_dirty on the last unpin of a changed page; `PoolLoss.PoolIsTheMapIff` drops the last condition.
- ExtendibleHash.ExtendibleHashTable.Insert: requires the condition under which the source's split loop ends; `OtherwiseAlwaysFull` shows that without it the loop does not end.
- LockRuns.NoAcquisitionAfterRelease: runs in which committed or aborted transactions make no lock calls, since the source does not check for them.
- Passes.OptimizeKeepsMeaningIff: plans whose schemas describe their children and whose scans start without a predicate, with indexes that agree with their tables; a filter that can move into a scan or a join, or an equi-join that can become an index join, is NULL on no row it meets; a constant-true join under a filter is INNER. `Joins.ScanKeepsRowsIff`, `Joins.MergeKeepsRowsIff` and `Joins.IndexJoinSameIff` give the exact conditions rule by rule.
- LockIsolation.RowsAreIsolated: gives a condition on the run, not the exact one; a table given up early does no harm until somebody else locks it. Transactions that were aborted or have finished are not at work.
- AggregateMeaning.CallsGive: arguments that are integers or NULL.
- TopNExecution.TopNExecutor.Init: rows whose sort keys are not NULL and compare; otherwise the comparator is no order and the library heap promises nothing.
