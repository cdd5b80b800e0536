# A verified model of fapolicyd's core

fapolicyd decides whether programs may be opened or executed. This project models the parts of the
daemon where its correctness is decided, in Dafny, and proves what they promise.

**Trust generations** (`TrustGenerations`, `GenerationInvariant`, `GenerationSafety`,
`GenerationReclaim`, `GenerationProgress`, `GenerationRecovery`). Lookups pin the active generation of the trust database while one update
thread builds a candidate, publishes it, reclaims retired generations, and closes, replaces and
reopens the LMDB environment. The model is a state machine whose steps are the code's critical
sections and committed transactions; threads interleave freely and every LMDB or file system call may
fail, also the reopen and the rollback after it, from which the update thread recovers later. The theorems
range over all states of all runs.

**Snapshot import, lookup and sizing** (`SnapshotLines`, `SnapshotImport`, `ImportRefinement`,
`TrustRecords`, `TrustLookup`, `TrustPath`, `Autosize`). Backend lines are parsed from their end and
written in bounded transactions with one retry after a full map; `ImportRefinement` shows that each of
these transactions is one step of the generation machine, and that what the machine publishes are the
parsed records of the lines. Lookups scan the stored fields and walk the duplicate records of a path in
every integrity mode, and `TrustPath` joins the two ends, up to a lookup on a pinned generation. Map
sizing is stated in the code's own wrapping 64-bit and saturating 32-bit arithmetic.

**Permission events** (`EventOwnership`, `EventSafety`, `DeferQueue`, `DecisionWorker`). The first two
follow every event from the kernel through dispatcher, queues, defer arrays and shutdown drain, as a
state machine of all threads. `DeferQueue` is the array with holes and stamps behind a plain list, and
`DecisionWorker` the sequential program of one worker, for all answers of /proc and all policy outcomes.

**AVL trees and attribute sets** (`AvlModel`, `AvlRotations`, `AvlSearch`, `AvlInsertion`, `AvlRemoval`,
`Avl`, `AvlIterator`, `AvlWalks`, `Keys`, `AttrSets`). Linked nodes are changed in place, with the
code's direction and path arrays. A position in the tree is a zipper of frames; each heap step is a
local fact about frames, and order, balance and height are proved on values.

**Smaller cores** (`Reload`, `Escape`, `Mounts`, `MountList`). Coalescing of reload requests, shell
escaping in buffers, and reconciliation of the watched mount list on linked nodes.

Atomics are taken as sequentially consistent.

Where the code and its comments differ, the model follows the code. The trust generation number is meant to
grow, but closing the environment forgets it: when a reopen and its rollback both fail, the next shrinking
reload or compaction brings the database back as generation one. A lookup reads at most 127
duplicates although its message speaks of 128. A new mount path that the kernel lists twice keeps its
entry but loses its add mark. The algorithm of a stored digest follows from its length only for the four
standard lengths and above 128 characters; for other lengths it also depends on what an earlier record
left in the buffer, which changes no verdict on a file that can be hashed. In the IMA mode only the first
compared duplicate is checked against the file's own digest, so the order of duplicates matters when the
measurement is stale.

`dafny verify dfyconfig.toml` checks the whole project.

## Model

| member | source | states |
|---|---|---|
| GenerationInvariant.StepKeepsInv | src/library/database.c:1218-1352 | every step of every thread (pin, unpin, reclaim, import, publish, store, close, swap, reopen, recovery after a failed reopen, any of them failing) keeps the protocol invariant: lock discipline, reader counts equal to the pins held, distinct names, complete databases, consistent numbers |
| GenerationInvariant.RunHasInv | src/library/database.c:1218-1352 | the invariant holds in every state of every run that starts after initialisation |
| GenerationSafety.PinnedGenerationIsComplete | src/library/database.c:1218-1352 | a generation with a reader is active or retired, in an open environment, and its named database holds exactly what it was published with |
| GenerationSafety.PinnedReaderIsSafe | src/library/database.c:1261-1352 | while a thread keeps its pin, the database it reads keeps its name, is never dropped or cleared, and does not change at all once retired |
| GenerationSafety.RetiredOnlyDrains | src/library/database.c:1236-1253 | a retired generation's reader count never grows and its contents never change, over any continuation |
| GenerationSafety.NamesAreDistinct | src/library/database.c:961-1002 | names of active, retired and candidate generations are pairwise distinct in every state, also between a committed drop and its unlink |
| GenerationSafety.HeldSlotsNeedGenerations | src/library/database.c:985-1002 | holding n slots takes n generations: the counting step behind the busy answer |
| GenerationSafety.BusyNeedsManyRetired | src/library/database.c:985-1002 | all 32 slots are held only with at least 31 retired generations |
| GenerationSafety.NamedDatabasesFit | src/library/database.c:80-89 | live named databases plus metadata never exceed the configured table of 40 |
| GenerationSafety.PersistedPublicationIsComplete | src/library/database.c:4332-4371 | at every step the persisted metadata names an existing database holding everything it was published with |
| GenerationSafety.RebuildIsAllOrNothing | src/library/database.c:5498-5569 | until its metadata commit a rebuild is invisible: whatever fails or is interleaved, metadata, its database, the active generation and its records are as before |
| GenerationSafety.CommittedCandidateIsTheSnapshot | src/library/database.c:3991-4194 | a committed candidate holds exactly the records of its snapshot, for all transaction boundaries and with or without the map-full retry |
| GenerationSafety.CloseNeedsNoReaders | src/library/database.c:5615-5656 | the environment is closed only when no thread is inside a lookup, pinned or reclaiming |
| GenerationSafety.ClosedEnvironmentIsUnpinned | src/library/database.c:2012-2068 | throughout a close no generation is pinned, for the shrink reopen and for the compaction swap |
| GenerationSafety.ReplacementIsAllOrNothing | src/library/database.c:1878-2068 | after a swap the service is the complete rebuilt file with both numbers advanced by one, or exactly the old file with its old numbers; after a recovery it is the rebuilt file or the one left on disk, complete, as trust generation one |
| GenerationSafety.NumberFallsIff | src/library/database.c:2646-2656 | a step lowers the trust number if and only if it brings the environment back after a failed reopen and the number was above one |
| GenerationSafety.NumbersNeverDecrease | src/library/database.c:2457-2533 | the trust number never decreases, across publications, reopens and rollbacks, as long as the environment does not go down |
| GenerationSafety.EnvironmentNumberNeverDecreases | src/library/database.c:474-506 | the environment number never decreases in any run, recoveries included |
| GenerationRecovery.NumberCanRestart | src/library/database.c:5611-5656 | from every reachable idle state that no lookup disturbs, two failed opens and one later reload lead to trust number one |
| GenerationRecovery.NumberFallsBack | src/library/database.c:5611-5656 | the failing run: one publication, one failed reopen, one recovery, and the number goes from two to one |
| GenerationRecovery.ReloadRecovers | src/library/database.c:5625-5656 | with the environment down, a shrinking reload can serve the file on disk as generation one of the same environment |
| GenerationRecovery.CompactionRecovers | src/library/database.c:2119-2145 | with the environment down, a compaction can serve any snapshot as generation one of the next environment |
| GenerationSafety.CounterFollowsActive | src/library/database.c:4332-4371 | the generation counter is one past the active generation whenever the environment is open |
| GenerationProgress.NameInUse | src/library/database.c:961-974 | true exactly for the names of active and retired generations |
| GenerationProgress.CandidateName | src/library/database.c:985-1002 | the lowest free slot; busy exactly when all 32 slots are held |
| GenerationProgress.RebuildCanPublish | src/library/database.c:4220-4371 | from every reachable idle state with a free slot, the update thread can publish any snapshot in that slot, under the next number |
| GenerationReclaim.UnreadIsOwed | src/library/database.c:1261-1352 | in every state of every run without a failed drop, a retired generation without readers is owed a reclaim pass by some thread |
| GenerationReclaim.CloseLeavesNone | src/library/database.c:2646-2685 | so closing the environment forgets no retired generation |
| GenerationProgress.ReclaimPass | src/library/database.c:1289-1352 | an undisturbed reclaim pass ends, is made of protocol steps, and leaves no unread retired generation unless a drop failed |
| SnapshotLines.RecordFromLine | src/library/database.c:3939-3976 | the backward scan yields the third blank from the end, or the leftmost one, including the empty-path case |
| SnapshotLines.LineRoundTrip | src/library/database.c:3939-3976 | a record line reads back as path and data for every path without a newline, blanks included |
| SnapshotLines.ReadersFindWrittenPath | src/library/database.c:3734-3758 | a reader computes the key under which the import stored the path, hashed or not |
| SnapshotImport.Store.Put | src/library/database.c:3463-3488 | a record joins the open transaction, or the failure aborts it |
| SnapshotImport.Store.ImportLine | src/library/database.c:4026-4075 | one line adds its record, if it has one; a commit, made after every 4096 records, leaves everything written so far |
| SnapshotImport.Store.Import | src/library/database.c:3991-4098 | success without stop adds exactly the snapshot's records; every commit, also of an import that fails later, leaves the records of some first lines |
| SnapshotImport.Store.LoadBackends | src/library/database.c:4149-4163 | the same for the snapshots of all available backends, one after the other |
| SnapshotImport.Store.CreateDatabase | src/library/database.c:4140-4194 | success leaves exactly the records of the available backends, with or without the one grow-clear-reimport retry; every commit since the last clear leaves the records of some first lines |
| ImportRefinement.CommitIsAChunk | src/library/database.c:4026-4098 | a committed import transaction is one step of the generation machine, whatever other threads did since the last one |
| ImportRefinement.CommitsAreChunks | src/library/database.c:3991-4098 | the commits of an import on a cleared candidate are such steps, one after the other, each with exactly the committed contents |
| ImportRefinement.FinishedImportCanCommit | src/library/database.c:4140-4194 | a finished import leads the machine to the end of the lines, where the metadata commit is enabled |
| ImportRefinement.SuccessfulImportIsServed | src/library/database.c:4140-4371 | what a successful import leaves can be published: the machine makes the same commits in order and then serves exactly the parsed records of the available backends |
| TrustRecords.LmdbScanRecord | src/library/database.c:3174-3222 | the scan of two numbers and a digest, with its signs, blanks, ranges and failures |
| TrustRecords.RecordRoundTrip | src/library/fapolicyd-backend.h:59 | a record reads back with the size and digest it was written with, for every source, size and digest that fit |
| TrustRecords.AlgOfLength | src/library/file.c:244-266 | a digest of a standard length has the algorithm of that length, whatever the buffer held before |
| TrustRecords.AlgIgnoresLeftoversIff | src/library/database.c:3234-3250 | the algorithm follows from the digest alone if and only if its length is standard or above 128 |
| TrustRecords.VouchesIffDescribes | src/library/database.c:3234-3250 | a parsed record vouches for a file exactly when its size and digest fields are the file's, under an admitted algorithm |
| TrustLookup.ReadTrustDb | src/library/database.c:4785-4967 | the loop with its per-algorithm cached digest gives the verdict of judging every record afresh, in every integrity mode |
| TrustLookup.ReadTrustDbIma | src/library/database.c:4868-4921 | with the measurement read and the file rehashed at most once, the same for the IMA mode |
| TrustLookup.ImaTrustedIff | src/library/database.c:4868-4921 | an IMA lookup is trusted exactly when one of the first 127 records has the measured digest, or is the first admitted one and has the file's own, and all before it are passed over; untrusted exactly when fewer than 127 are all passed over |
| TrustLookup.CurrentMeasurementIgnoresOrder | src/library/database.c:4868-4921 | with a current measurement: trusted exactly when some admitted record lists it, in any order |
| TrustLookup.OrderIgnoredIffCurrent | src/library/database.c:4888-4921 | the order of two duplicates never matters if and only if the measurement is current |
| TrustLookup.TrustedIffMatch | src/library/database.c:4785-4967 | in the size and digest modes: trusted exactly when one of the first 127 records has the file's size and, in digest mode, its digest by an algorithm above the floor, and all before it are passed over |
| TrustLookup.ManyDuplicatesAreAnError | src/library/database.c:4812-4821 | untrusted exactly when fewer than 127 records were all skipped; with 127 skipped it is an error |
| TrustLookup.JudgeMeans | src/library/database.c:4843-4963 | what makes a single record match or be passed over, spelled out without the order of the checks |
| TrustLookup.DecisiveRecord | src/library/database.c:4812-4963 | the first record that is not passed over decides: trusted, or an error if it is malformed, unreadable or cannot be hashed |
| TrustPath.TrustedIffDescribed | src/library/database.c:4785-5022 | a digest lookup in an imported database trusts a file exactly when the size and digest fields of some record of its path are the file's, in any cursor order and whatever the digest buffer held |
| TrustPath.ListedFileIsTrusted | src/library/database.c:3939-4967 | a path that a backend snapshot lists with the file's size and digest is trusted after the import |
| TrustPath.PinnedLookupTrustsListedFile | src/library/database.c:1261-1352 | while a thread keeps its pin on a generation published from such a snapshot, its lookups trust the file, whatever other threads do |
| Autosize.ActiveHeadroom | src/library/database.c:622-656 | active pages fit in 75 percent of the recommended pages if and only if 100 times the count plus 74 stays below 2^64 |
| Autosize.ReloadHeadroom | src/library/database.c:622-656 | twice the active pages fit in 80 percent of it if and only if 200 times the count plus 79 stays below 2^64 |
| Autosize.MbIsCeiling | src/library/database.c:580-595 | the MiB value is the smallest that holds the bytes, and at least one |
| Autosize.MapHoldsPages | src/library/database.c:605-614 | the MiB value holds the pages if and only if their bytes do not saturate the 32-bit setting |
| Autosize.MapActiveHeadroom | src/library/database.c:605-656 | the data fit in 75 percent of the map that is set if and only if they fit in 75 percent of the largest map that can be set |
| Autosize.MapReloadHeadroom | src/library/database.c:605-656 | twice the data fit in 80 percent of it if and only if they fit in 80 percent of the largest map |
| Autosize.Config.ApplyPlan | src/library/database.c:767-815 | the new setting is the planned one and the result tells whether it changed |
| Autosize.PlanIsStable | src/library/database.c:767-815 | a plan repeated on the same measurements changes nothing; after a plan that changed the setting, neither does one with another map and high-water mark |
| Autosize.SettingChangesAtMostOnce | src/library/database.c:767-815 | over any sequence of plans for the same data, mode and floor the setting changes at most once, and only to the target |
| Autosize.PlanKeepsRoom | src/library/database.c:697-749 | a plan never ends below its target, and shrinks by at least a tenth or not at all |
| Autosize.PercentMeans | src/library/database.c:573-579 | an integer percentage is below a bound exactly when the share is, unless the product wraps |
| Autosize.ShrinkNeedsSlack | src/library/database.c:732-749 | a shrink needs data below 65 percent of the map and, except at startup, the file's high-water mark below 80 percent |
| Autosize.RetryGrows | src/library/database.c:2291-2334 | the map-full retry strictly exceeds configured and live sizes and reaches the target, unless clamped |
| Reload.RunHasInv | src/library/database-update.c:439-525 | the flag invariant holds in every interleaving of requesters and the update thread |
| Reload.NoRequestIsLost | src/library/database-update.c:439-497 | every request is pending, about to begin, or covered by a reload that began after it |
| Reload.BeginSucceeds | src/library/database-update.c:473-497 | the compare-and-exchange of the only update thread never fails |
| Reload.QuietRunOwes | src/library/database-update.c:517-525 | without new requests only the reloads already owed can begin |
| Reload.OneFollowUp | src/library/database-update.c:439-525 | any number of requests during one reload yield at most one follow-up |
| Reload.PendingIsServed | src/library/database-update.c:627-650 | from idle, a pending request can be served by a reload that covers all requests so far |
| EventSafety.StepConserves | src/daemon/decision-worker.c:217-272 | no step of dispatcher, stopper or worker loses or duplicates an event |
| EventSafety.OwnedOrAnsweredOnce | src/daemon/notify.c:550-615 | every event read is at every moment in exactly one place, or answered, once |
| EventSafety.ExitedWorkersAnsweredEverything | src/daemon/decision-worker.c:1777-1914 | when all workers have exited, every event that reached the pool has been answered exactly once |
| EventSafety.NoAdmissionAfterFlag | src/daemon/decision-worker.c:217-272 | once a worker has seen the stop flag no event enters any queue, in any later state |
| EventSafety.DrainNeverBlocks | src/daemon/decision-worker.c:1268-1286 | the shutdown drain never waits on its semaphore and never finds the ring empty |
| EventSafety.DrainTerminates | src/daemon/decision-worker.c:1268-1311 | a draining worker can always step and each step brings it closer to its exit |
| EventSafety.SamePidSameWorker | src/daemon/decision-worker.c:142-173 | all events of one pid are only ever held by one worker |
| DeferQueue.Queue.constructor | src/library/decision-defer.c:127-158 | an empty array scaled from the subject cache, with a floor |
| DeferQueue.Queue.Push | src/library/decision-defer.c:233-277 | appends to the list of parked events, or refuses exactly when the array is full; counters and maximum follow |
| DeferQueue.ScanSlot | src/library/decision-defer.c:196-221 | the used entry for the slot with the smallest stamp |
| DeferQueue.ScanMatch | src/library/decision-defer.c:339-371 | the same for a predicate, stopping early once all used entries were seen |
| DeferQueue.UsedCountPrefix | src/library/decision-defer.c:339-371 | a prefix with all used entries leaves none behind it: the early stop is sound |
| DeferQueue.OldestIsFirst | src/library/decision-defer.c:196-221 | the smallest stamp is the first match of the list |
| DeferQueue.PushRepresents | src/library/decision-defer.c:233-277 | filling a hole with the next stamp represents the longer list |
| DeferQueue.PopRepresents | src/library/decision-defer.c:286-303 | clearing the used flag represents the list without that event |
| DeferQueue.Queue.PopEntry | src/library/decision-defer.c:286-303 | removes exactly that event and keeps the order of the others |
| DeferQueue.Queue.PopSlot | src/library/decision-defer.c:313-324 | removes the first parked event of the slot |
| DeferQueue.Queue.PopIf | src/library/decision-defer.c:339-371 | removes the first parked event that matches |
| DeferQueue.Queue.PopAny | src/library/decision-defer.c:380-392 | removes the oldest parked event |
| DeferQueue.Queue.SnapshotReset | src/library/decision-defer.c:456-479 | reports the counters; after a reset the maximum is the live depth |
| DecisionWorker.Worker.IsBlocked | src/library/event.c:874-894 | blocked exactly behind another process's building subject that is neither traced nor stale; otherwise that subject is gone |
| DecisionWorker.Worker.Decide | src/library/policy.c:1569-1635 | answers the event once and reports its slot as completed exactly when it is not building |
| DecisionWorker.ChainServesInOrder | src/daemon/decision-worker.c:1136-1174 | a chain serves the slot's waiters in arrival order and leaves other slots alone |
| DecisionWorker.ChainConserves | src/daemon/decision-worker.c:1136-1174 | the served waiters and the remaining list are together the old list |
| DecisionWorker.PopContinuesChain | src/daemon/decision-worker.c:1172-1173 | each pop of the chain hands out the next waiter |
| DecisionWorker.ChainForgetsNone | src/daemon/decision-worker.c:1150-1174 | after a chain every remaining event still waits behind a building subject |
| DecisionWorker.Worker.RunChain | src/daemon/decision-worker.c:1136-1174 | the chain ends; it answers the event and a prefix of the slot's waiters, and stops only at a building slot or with nobody waiting |
| DecisionWorker.Worker.TryPark | src/daemon/decision-worker.c:1130-1137 | parks exactly a blocked event that fits |
| DecisionWorker.Worker.Dispatch | src/daemon/decision-worker.c:1107-1175 | an event is parked or run, never both; no parked event is left behind a free slot |
| DecisionWorker.Worker.Examine | src/daemon/decision-worker.c:1208-1214 | events found ready stay unblocked; the others were blocked when probed |
| DecisionWorker.Worker.PopReady | src/daemon/decision-worker.c:1232-1235 | the oldest ready event; none exactly when all are blocked |
| DecisionWorker.Worker.ReleaseReady | src/daemon/decision-worker.c:1226-1243 | terminates for all answers of /proc, conserves events, and leaves only blocked ones |
| DecisionWorker.Worker.ShutdownQueued | src/daemon/decision-worker.c:1268-1286 | answers every queued event once, in order |
| DecisionWorker.Worker.ShutdownDeferred | src/daemon/decision-worker.c:1297-1311 | answers every parked event once, oldest first |
| AvlModel.HeightFits | src/library/avl.h:16-18 | a balanced tree of fewer than 2^64 nodes has height below 92, so the path arrays and the iterator stack never overflow |
| AvlModel.BalancedIsFull | src/library/avl.h:16-18 | a balanced tree of height h has at least a Fibonacci number minus one nodes |
| AvlRotations.SingleBalances | src/library/avl.c:104-109 | the single rotation restores exact balance factors |
| AvlRotations.DoubleBalances | src/library/avl.c:110-124 | the double rotation restores exact balance factors in its three cases |
| AvlRotations.DoubleKeepsContent | src/library/avl.c:110-124 | rotations keep every node once and the in-order sequence |
| Avl.AvlTree.Search | src/library/avl.c:41-58 | finds the node with the key exactly when there is one |
| AvlInsertion.FoldEven | src/library/avl.c:96-100 | below the last uneven node every subtree on the path grows by one level and is balanced |
| AvlInsertion.BumpPath | src/library/avl.c:96-100 | the second loop moves exactly the balance factors from that node down to the new one |
| AvlInsertion.Settle | src/library/avl.c:102-152 | the rotations leave the subtree balanced at the height its ancestors expect |
| Avl.AvlTree.Insert | src/library/avl.c:64-156 | keeps order, exact balance and all nodes; puts the new node in at its one place, or returns the duplicate and changes nothing |
| AvlRemoval.StackWay | src/library/avl.c:171-181 | the path arrays hold the way from the anchor to the node |
| AvlRemoval.StackSuccessor | src/library/avl.c:185-218 | and continue to the parent of the in-order successor, whose entry is filled in last |
| AvlRemoval.Splice | src/library/avl.c:185-218 | the node is replaced by its left subtree, its right child or its successor |
| AvlRemoval.SplicedSpan | src/library/avl.c:185-218 | the in-order sequence loses exactly that node |
| AvlRemoval.ShrinkStep | src/library/avl.c:222-295 | one step of the walk back settles the tree or hands a lower, balanced subtree to the parent |
| AvlRemoval.Shrink | src/library/avl.c:221-295 | the walk back ends with every balance factor exact |
| Avl.AvlTree.Remove | src/library/avl.c:160-300 | keeps order, exact balance and all other nodes; takes out exactly the node with the key, or changes nothing |
| AvlWalks.Traverse | src/library/avl.c:308-337 | the callback sees the nodes in key order; its results are summed until a negative one stops the walk |
| AvlWalks.Intersection | src/library/avl.c:406-440 | true exactly when the two sets share a key |
| AvlIterator.Iterator.First | src/library/avl.c:349-367 | the smallest node; an empty tree leaves the iterator alone |
| AvlIterator.Iterator.Next | src/library/avl.c:369-404 | the node that follows in key order, none after the last, the first again after that |
| AvlIterator.Iterator.VisitAll | src/library/rules.c:214-215 | iterating from first to null visits exactly the sorted sequence |
| Keys.CompareIsTotal | src/library/attr-sets.c:73-116 | the comparators are antisymmetric and zero only for equal keys |
| Keys.LessIsTransitive | src/library/attr-sets.c:73-116 | and transitive, for numbers and for strcmp |
| AttrSets.StrNCompareIsPrefix | src/library/attr-sets.c:126-131 | strncmp over a member's length tests whether it is a prefix |
| AttrSets.AttrSet.AppendInt | src/library/attr-sets.c:301-328 | adds exactly the number, failing exactly for a wrong type, a negative in an unsigned set or a duplicate |
| AttrSets.AttrSet.AppendStr | src/library/attr-sets.c:338-372 | adds exactly the string and records whether any member is a glob |
| AttrSets.AttrSet.CheckInt | src/library/attr-sets.c:395-408 | membership |
| AttrSets.AttrSet.CheckStr | src/library/attr-sets.c:417-427 | membership |
| AttrSets.AttrSet.CheckPrefix | src/library/attr-sets.c:437-452 | true exactly when some member is a prefix of the string |
| Escape.RoundTrip | src/library/escape.c:117-228 | decoding undoes encoding for every byte string |
| Escape.PlainRoundTrip | src/library/escape.c:91-104 | a string that needs no escaping decodes to itself |
| Escape.EncodeHasNoNul | src/library/escape.c:117-153 | encodings contain no NUL |
| Escape.Size | src/library/escape.c:61-84 | the predicted size is the encoded length, or the maximum on overflow; the flag tells whether any byte needs escaping |
| Escape.CheckEscape | src/library/escape.c:91-104 | zero exactly when nothing needs escaping, else the encoded length |
| Escape.EscapeInto | src/library/escape.c:117-153 | writes the whole encoding and its terminator exactly when they fit |
| Escape.EscapeShell | src/library/escape.c:155-179 | succeeds exactly for the right predicted size below 8192 |
| Escape.Unescape | src/library/escape.c:191-228 | decodes in place, writes never pass reads, bytes after the terminator stay; fails exactly without a NUL |
| Escape.StoreAndLoad | src/library/escape.c:91-228 | predict, escape if needed and unescape gives the string back for every encoding below 8192 bytes |
| Mounts.MergeShape | src/daemon/mounts.c:99-129 | for every old and new list: old entries survive as first of their path if still mounted, new paths follow once each |
| Mounts.UpdatedPaths | src/daemon/notify.c:357-410 | after reconcile and update the list holds exactly the new paths, each once |
| Mounts.MarkedPaths | src/daemon/notify.c:373-385 | an add mark is issued for exactly the paths absent before and named once |
| Mounts.MarksAreExact | src/daemon/mounts.c:111-123 | marks equal the new paths if and only if no new path is named twice |
| Mounts.RepeatedPathIsNotMarked | src/daemon/mounts.c:112-113 | a path named twice is kept but not marked |
| MountList.MountList.Append | src/daemon/mounts.c:56-86 | one fresh node behind the last |
| MountList.MountList.MarkAllDeleted | src/daemon/mounts.c:151-158 | every status becomes delete, links stay |
| MountList.MountList.Find | src/daemon/mounts.c:160-171 | moves to the first node with the path, exactly when there is one |
| MountList.MountList.Reconcile | src/daemon/mounts.c:99-129 | the list becomes the merged one; every incoming node is linked or freed, never both |
| MountList.MountList.Update | src/daemon/notify.c:357-410 | unlinks and frees exactly the deleted nodes and issues exactly the add marks; nothing before the group is open |

## Left out

- First-time population: the active database is filled in place before the daemon serves lookups; runs start after initialisation.
- Single-file updates: `StoreRecord` is one step, while the code pins the active generation, writes the record, releases the pin and rewrites the metadata as separate transactions under the shared update lock.
- The reconfigure thread takes the exclusive update lock for a moment to replace the list of backends (src/daemon/fapolicyd.c:527); the machine has no step for it, since nothing it models changes.
- A reload that does not shrink the map while the environment is down: the code then calls LMDB with a null environment (src/library/database.c:4239, 5667), which has no defined outcome, so the machine has no step for it.
- GenerationSafety.PinnedReaderIsSafe: a thread of the machine holds at most one pin. A lookup nested in another one of the same worker (src/library/database.c:2539-2544) counts as another thread.
- LMDB internals: page allocation, DBI handle numbers, mmap and sync; a store of named sets with atomic transactions that may fail stands for them.
- Backend loaders, the buffered line reader and the package databases: their output is the input of `SnapshotImport`.
- Offline validation of a rebuilt file: it is structural in the code and would add no promise about backends.
- The second lookup of a /usr path on systems with merged top-level directories: one more call of the modelled lookup.
- TrustLookup.ReadTrustDb: the file is taken not to change during one lookup; reading the security.ima attribute is one answer, whose decoding is not modelled.
- TrustLookup.TrustedIffMatch: speaks of the size and digest modes; `ImaTrustedIff` is its counterpart.
- DecisionWorker.Worker.Decide: rule evaluation, reply writing and the subject state machine are one arbitrary outcome; only the slot it leaves behind matters here.
- DecisionWorker.Worker.Dispatch: that no event waits behind a free slot is proved for decisions that touch only their own slot; a requested cache flush is left to the periodic release.
- EventOwnership: the subject cache is abstracted away there; a worker may park or release any event at any time.
- EventSafety.ExitedWorkersAnsweredEverything: "answered" means the one call that replies to an event and closes its descriptor. The daemon closes the fanotify group before it drains the pool (src/daemon/fapolicyd.c:1832-1837), which lets the kernel allow what is outstanding; for an event drained after that the call closes the descriptor and writes no reply.
- EventSafety.OwnedOrAnsweredOnce: handle_events() returns without answering the batch it has read when the stop flag is set (src/daemon/notify.c:546). Only the main thread sets that flag, outside handle_events(), so the branch is never taken and no step of the machine stands for it.
- Queue rings and semaphores are modelled by their contents and counts, not by ring indices.
- Reload: a FIFO command may start a reload whenever the update thread is idle; that the code drops it when a reload was already made in the same cycle is not modelled.
- TrustPath.TrustedIffDescribed: for fewer than 127 well-formed records and a file that can be hashed with every admitted algorithm; `DecisiveRecord` covers the rest.
- TrustRecords.LmdbScanRecord: strtoul and strtoull are one function, in the C locale and with 64-bit longs; the number of the trust source is dropped.
- Memory allocation failures of the AVL, attribute set, mount list, defer array and escape code.
- AvlWalks.Traverse: the callback is a pure function of the node, and its results are summed without 32-bit overflow.
- AvlIterator.Iterator.Next: the tree is not changed during an iteration, as the code requires.
- AttrSets registry of sets, destruction, printing and glob matching: easy members.
- MountList.MountList.Reconcile: strings are freed together with their node.
- Autosize.SettingChangesAtMostOnce: about one mode and one floor at a time; startup ignores the floor that live planning honours.
- Kernel marks, audit, logging, metrics output, configuration and command line tools.
