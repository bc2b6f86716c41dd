# A verified model of the storage engine

The program is a content-addressed, deduplicating, replicated file store. A
master keeps reference-counted chunk rows in PostgreSQL and collects orphans
with tombstones; workers hold hash-checked chunk bytes on disk; a client cuts
files into chunks, uploads what is missing, resumes, downloads and reassembles.
This project models these parts in Dafny and proves what they guarantee
together. `dafny verify dfyconfig.toml` checks all of it.

## Files

| file | what it holds |
|---|---|
| `Basics.dfy` | bytes, hashes, worker ids, option and result types |
| `ChunkTable.dfy` | the `files` and `chunks` tables: the effect of each statement and of each transaction, as functions |
| `Repository.dfy` | the class `PostgresRepository`: each method as a loop of statements, proved against those functions |
| `Lifecycle.dfy` | the chunk lifecycle as a step machine: clients, worker disks, collectors, operators and the clock in any interleaving |
| `LifecycleInvariant.dfy` | the inductive invariant of that machine |
| `LifecycleTheorems.dfy` | what holds on every run |
| `LifecycleBounds.dfy` | how tight the premises are: runs from the initial state that break a guarantee once its bound is exceeded |
| `GcDaemon.dfy` | one sweep of the collector daemon, on the repository class |
| `ShardMap.dfy`, `Directory.dfy` | bucket rebalancing; the worker, cluster and routing tables under operator actions and heartbeats |
| `System.dfy` | administration and lifecycle composed over one worker table |
| `Semaphore.dfy`, `Slicer.dfy` | permits, parallel hashing, and the random-access second pass with its sticky stream bits |
| `StateManager.dfy`, `Correlation.dfy` | the client's manifest and log; the two-cursor pass over hashes and plan |
| `Upload.dfy`, `Download.dfy` | the parallel transfers under every order of task completion |
| `Client.dfy` | the client's two operations |
| `Attempts.dfy`, `RoundTrip.dfy` | a series of upload attempts as one session of the lifecycle; upload and download joined through any run of it |
| `DiskReserve.dfy`, `Worker.dfy` | the worker's space accounting under concurrent saves; storage and the chunk endpoints |
| `SessionToken.dfy` | printing, splitting, parsing and expiry of session tokens |

## How it is modelled

* Each repository method is one atomic transaction; an exception rolls all of
  it back, so it is no step of the machine. Time is the database clock, in
  seconds. LIMIT without an order, map order and thread scheduling are
  nondeterministic choices. Failures are too, but within what a parameter says
  can be relied on (a database that answers, workers that accept or answer, a
  user who does not pause, a healthy disk), so each contract also says when the
  operation must succeed.
* Thread pools are loops over guarded steps. Such a loop ends only when no step
  is enabled, so a proof that it ends with everything done also says that no
  schedule deadlocks.
* SHA-256, HMAC and the cipher are parameters. A chunk's digest decides what a
  worker stores; the round trip assumes that no two different byte strings
  among the file's slices and the downloaded ranges share a digest, and that
  decryption inverts encryption.
* Worker addresses stand one-to-one for worker ids.

Assumptions about the environment, all visible in the steps or contracts:

1. A commit follows its own session's latest init by at most 24 hours
   (`Lifecycle.MayCommit`). `LifecycleBounds.CommitDelayIsExact` proves that no
   larger bound would do.
2. A resumed init is late against the client's own reading of the elapsed time,
   by clock skew and delay together, by at most one hour (`Lifecycle.MayInit`).
   `LifecycleBounds.SlackIsExact` proves that no larger allowance would do.
3. A worker DELETE takes effect, if at all, before the daemon sees its result;
   a confirmation means the bytes are gone.
4. Worker saves, manifest saves and log appends are all-or-nothing.
5. Collecting a batch either commits or returns nothing.
6. Only this program takes space on the worker's disk, where a statement says so.
7. If two inspections of a local file see the same size and time stamp, the file
   did not change in between (`Client.StampsTell`).

Three findings about the code came out of the proofs.

* The reference count is not exact. A delete takes one reference per distinct
  hash although the commit added one per occurrence, and it takes those of one
  row although it removes all rows of the name, so counts can stay too high:
  `LifecycleBounds.RepeatedChunkLeavesReferences` and
  `LifecycleBounds.RepeatedNameLeavesReference` are runs in which they do.
  `LifecycleTheorems.LedgerIsExact` gives the surplus, which is never negative,
  and `LifecycleTheorems.LedgerIsExactIff` the exact condition: every delete
  picked a row that repeats no chunk and removed no other row with chunks.
* Buckets are balanced over all clusters only in the first round. With N buckets
  and m > N additions, only the newest (m - 1) mod N + 1 clusters own anything,
  evenly (`ShardMap.OwnershipIsCyclic`); the map is balanced over all m if and
  only if m <= N or (m - 1) mod N = 0 (`ShardMap.BalancedIff`).
* The space guard charges the bytes a save has already written twice, as used
  and as reserved, so it can refuse a save that fits
  (`DiskReserve.WrittenSaveBlocksFittingOne`). It refuses none that fits if and
  only if nothing fits at all or no live save has written anything
  (`DiskReserve.GuardIsExactIff`).

## Model

| member | source | states |
|---|---|---|
| LifecycleTheorems.NoLiveChunkCollected | src/master/PostgresRepository.hpp:181-284 | on every run of any number of clients and collectors, each hash of each live file has a row with a count of at least 1 and is in no collector's batch |
| LifecycleTheorems.NoDeleteSentForLiveChunk | src/master/main.cpp:40-61 | no worker is ever asked to delete a chunk of a live file |
| LifecycleTheorems.DeduplicationIsSound | src/master/PostgresRepository.hpp:230-248 | a row with references has a replica that stores the bytes, and all its replicas do on runs without a resumed upload |
| LifecycleTheorems.OmittedChunkStaysStored | src/master/PostgresRepository.hpp:240-246 | a chunk left out of an upload plan stays on a replica as long as the session's lease, even if its last other file is deleted |
| LifecycleTheorems.LeaseHolds | src/master/PostgresRepository.hpp:240 | within 24 hours of its latest init each hash of a session has an untombstoned row stamped by that init or later |
| LifecycleTheorems.LeaseIsInitTimes | src/client/DSEClient.cpp:110-168 | a session's lease is the times of its first and latest successful init |
| LifecycleTheorems.ResumeFindsEveryRow | src/client/DSEClient.cpp:110-135 | when a resume is accepted, with any allowance of skew and delay up to 3600 s, at no moment since the first init was a row of the upload purged or tombstoned |
| LifecycleTheorems.ResumeIsNeverRefused | src/master/PostgresRepository.hpp:232-237 | an accepted resume is not answered CHUNK_LOCKED or unroutable, and each index in its log is a chunk some replica stores |
| LifecycleBounds.SlackIsExact | src/client/DSEClient.cpp:118 | an allowance of skew and delay beside the 82800 s rule is safe, meaning that on no run of everybody does an accepted resume miss a row, if and only if it is at most 3600 s |
| LifecycleTheorems.LedgerIsExact | src/master/PostgresRepository.hpp:276-281 | on every run the count of a row equals its occurrences over the live files plus the sum of what deletes failed to take back, which is never negative |
| LifecycleTheorems.CountIsExactIff | src/master/PostgresRepository.hpp:548-577 | one hash's count is exact if and only if each delete so far removed one occurrence when the picked row has the hash and none otherwise |
| LifecycleTheorems.CleanDeleteIff | src/master/PostgresRepository.hpp:563-573 | a delete takes back every reference it should if and only if the picked row repeats no chunk and no other removed row has any |
| LifecycleTheorems.LedgerIsExactIff | src/master/PostgresRepository.hpp:548-577 | all counts are exact if and only if every delete so far was of that kind |
| LifecycleBounds.RepeatedChunkLeavesReferences | src/master/PostgresRepository.hpp:565-568 | a run from the empty system in which a file of c copies of a chunk is committed and deleted, leaving a count of c - 1 for no occurrence |
| LifecycleBounds.RepeatedNameLeavesReference | src/master/PostgresRepository.hpp:553-573 | a run in which a commit whose answer was lost is repeated, and deleting the name leaves a count of 1 for no occurrence |
| LifecycleTheorems.DeleteMakesNoTombstone | src/master/PostgresRepository.hpp:566-568 | a delete never turns a row into a tombstone |
| LifecycleTheorems.TombstonesHaveOneOwner | src/master/PostgresRepository.hpp:338-346 | a row is a tombstone if and only if one daemon holds it or a failure leaked it; batches of different daemons are disjoint |
| LifecycleTheorems.NothingLeaksWithoutFailure | src/master/main.cpp:153-171 | without a crash or a failed revert, idle daemons leave no tombstone behind |
| LifecycleTheorems.HeldRowsAreFrozen | src/master/PostgresRepository.hpp:412-424 | while a daemon holds a tombstone no other participant changes or removes its row |
| LifecycleTheorems.BulkSplitsBatch | src/master/main.cpp:139-151 | the bulk delete removes a row of the batch if and only if all its workers confirmed and the database did; every other row stays a tombstone to revert |
| LifecycleTheorems.RevertReleases | src/master/PostgresRepository.hpp:412-424 | a successful revert leaves the row at count 0 with a fresh stamp and in no daemon's hands |
| LifecycleTheorems.BatchFate | src/master/main.cpp:127-172 | on every run of everybody, from the collection of a batch to the daemon's rest, without failure of that daemon, each row is settled exactly once: purged after all its workers confirmed, or given back with a fresh stamp |
| LifecycleTheorems.PurgedBytesAreGone | src/master/main.cpp:40-61 | when a row is purged its bytes are off all its workers, but for what somebody stored after the collection |
| LifecycleTheorems.PlacementIsStable | src/master/PostgresRepository.hpp:223-228 | the replica set of a row is the same at any two moments of its life |
| LifecycleTheorems.DownloadPlanIsComplete | src/master/PostgresRepository.hpp:305-324 | at every moment the plan of a live file lists its chunks one for one in order, each with a worker that stores it |
| LifecycleBounds.ExpiredRowCanGo | src/master/main.cpp:127-172 | an expired row can be purged at once by an idle daemon: collection is not vacuous |
| LifecycleBounds.CommitDelayIsExact | src/master/PostgresRepository.hpp:276-281 | a delay between init and commit is safe, meaning that on no run does the commit of a finished transfer leave a live file without a referenced row for a chunk, if and only if it is at most 86400 s |
| LifecycleBounds.CommitKeepsLedgerIff | src/master/PostgresRepository.hpp:276-281 | whenever it comes, a commit keeps every count at least the live occurrences if and only if each of its hashes has an untombstoned row |
| LifecycleInvariant.StepInv | src/master/PostgresRepository.hpp:181-431 | every step of every participant keeps the invariant of ledger, placement, tombstone ownership, replicas and leases |
| LifecycleInvariant.StepSurplus | src/master/PostgresRepository.hpp:548-577 | how each step changes the difference between a count and the live occurrences |
| ChunkTable.InitSucceedsIff | src/master/PostgresRepository.hpp:187-249 | an upload-init goes through if and only if none of its hashes is tombstoned or without a registered worker |
| ChunkTable.MissingPlansAre | src/master/PostgresRepository.hpp:187-248 | the plan picks, in order and with repeats, exactly the hashes with no row or a count of 0, on the registered workers of their row or route |
| ChunkTable.FirstErrorIs | src/master/PostgresRepository.hpp:215-237 | the error is that of the first hash that stops the init: CHUNK_LOCKED for a count of -1, otherwise that no registered worker can take it |
| ChunkTable.WithoutIs | src/master/PostgresRepository.hpp:571-573 | what a delete keeps are exactly the rows of another user or name, in their order |
| ChunkTable.WithoutCounts | src/master/PostgresRepository.hpp:571-573 | no row of the user and name is left, and every other row as often as it was there |
| ChunkTable.JoinPlansAre | src/master/PostgresRepository.hpp:305-324 | the download plan picks, in order, exactly the hashes that have a row, each with the registered workers of that row |
| ChunkTable.JoinPlansComplete | src/master/PostgresRepository.hpp:305-324 | when each hash has a row, the download plan has one entry for each chunk of the file, in order |
| Repository.PostgresRepository.FilterMissingChunks | src/master/PostgresRepository.hpp:181-252 | the loop answers with the missing hashes in order, repeats included, on the registered workers of their rows; named rows get a fresh stamp and nothing else; a new row lies on exactly the registered workers listed by the cluster that owns its digest's bucket; it fails, without effect, if and only if a hash is a tombstone, an unreferenced row without registered workers, or new while there is no cluster |
| Repository.InitErrorIs | src/master/PostgresRepository.hpp:215-237 | an init fails if and only if one of its hashes stops it, and with CHUNK_LOCKED if and only if the first such is a tombstone |
| Repository.PlacementIs | src/master/PostgresRepository.hpp:199-228 | the nodes of each new row are the registered workers of the cluster that owns the bucket of its digest, all of them and no others |
| Repository.PostgresRepository.CommitFile | src/master/PostgresRepository.hpp:254-284 | adds the file row, and to each row of its hashes one reference for each occurrence and a fresh stamp, or changes nothing |
| Repository.PostgresRepository.DeleteFile | src/master/PostgresRepository.hpp:548-577 | found if and only if a row has that user and name; afterwards no such row is left and every other is, as often as before; one reference less for each distinct hash of one of the removed rows, and no other change |
| Repository.PostgresRepository.GetDownloadPlan | src/master/PostgresRepository.hpp:286-328 | answers if and only if the file exists, with its size and the join of its chunk list |
| Repository.PostgresRepository.GetOrphanedChunks | src/master/PostgresRepository.hpp:330-378 | sets to -1 as many rows as the limit allows of those with count 0 and a stamp more than 86400 s old, whichever are picked, and lists each once with its registered workers |
| Repository.PostgresRepository.DeleteChunkRecordsBulk | src/master/PostgresRepository.hpp:380-410 | removes exactly the named rows that still are tombstones, or nothing |
| Repository.PostgresRepository.RevertTombstone | src/master/PostgresRepository.hpp:412-431 | a tombstone goes back to count 0 with a fresh stamp; any other row is untouched |
| Repository.PostgresRepository.VerifyNodesExist | src/master/PostgresRepository.hpp:53-83 | the count comparison accepts exactly the non-empty lists of registered workers, duplicates allowed |
| Repository.PostgresRepository.RegisterWorker | src/master/PostgresRepository.hpp:148-179 | the row with the heartbeat's internal host and port, or else a new one, takes its advertised address and free space; it is READ_ONLY if it was and ACTIVE otherwise; all other rows are unchanged |
| Repository.PostgresRepository.AddCluster | src/master/PostgresRepository.hpp:433-501 | fails without effect if and only if the list is empty, names an unknown worker or the name is used; otherwise the cluster is stored, the map rebalanced, and digests in its buckets route to exactly the listed workers |
| Repository.PostgresRepository.ReplaceCluster | src/master/PostgresRepository.hpp:503-536 | makes the retired workers READ_ONLY and changes nothing else of any worker, swaps the list, after which digests in the cluster's buckets route to exactly the new workers; or fails without effect |
| GcDaemon.PurgeOrphanBatchParallel | src/master/main.cpp:64-109 | in any order a hash is reported only when it is gone from each of its workers, always when they all answer, and nothing else is deleted |
| GcDaemon.RunBatch | src/master/main.cpp:135-171 | each row of the batch ends purged everywhere, or given back with a fresh stamp if a worker or the database failed, or left a tombstone if the database failed |
| GcDaemon.Sweep | src/master/main.cpp:112-172 | the sweep terminates; bytes go only for rows that were expired, other rows are untouched, and the total is the number of rows gone; while the database answers no expired row is left, each one whose workers answer is gone with its bytes, and every batch but the last takes 100 |
| GcDaemon.BatchIsProgress | src/master/main.cpp:129-133 | every handled batch strictly lowers the number of expired rows, whether its purges succeed, fail or are reverted |
| ShardMap.Reassign | src/master/PostgresRepository.hpp:490-495 | whichever buckets the LIMIT picks, exactly k of them move between the two clusters and no others move |
| ShardMap.AddOwner | src/master/PostgresRepository.hpp:454-498 | in any order of owners, each earlier owner is cut to the floor share and buckets move only into the new cluster |
| ShardMap.BalanceHolds | src/master/PostgresRepository.hpp:479-498 | after the m-th addition, m up to N+1, each earlier cluster owns floor(N/m) buckets and the newest floor(N/m) + N mod m |
| ShardMap.OwnershipIsCyclic | src/master/PostgresRepository.hpp:454-498 | after any number m of additions the newest (m - 1) mod N + 1 clusters are balanced among themselves and all older ones own nothing |
| ShardMap.BalancedIff | src/master/PostgresRepository.hpp:479-498 | after the m-th addition, for every m, the map is balanced over all clusters if and only if m <= N or (m - 1) mod N = 0 |
| ShardMap.ShareIsFloor | src/master/PostgresRepository.hpp:480 | the share computed is integer division |
| Directory.BucketOfDigest | src/master/PostgresRepository.hpp:37-51 | for a digest the bucket is the value of its first eight hexadecimal digits modulo the bucket count |
| Directory.BucketFormula | src/master/PostgresRepository.hpp:37-51 | that value written out, digit by digit; a text shorter than eight characters is in bucket 0 |
| Directory.ParseHexNumeral | src/master/PostgresRepository.hpp:43-44 | any other text is read like strtoul in base 16: past spaces, a sign and a 0x, up to the first character that is no digit |
| Directory.HexDigitIff | src/master/PostgresRepository.hpp:44 | exactly 0-9, a-f and A-F are read as digits |
| Directory.RouteIsOwningCluster | src/master/PostgresRepository.hpp:203-213 | a digest routes to a worker if and only if the cluster that owns its bucket lists it |
| Directory.NamesStayUnique | src/master/PostgresRepository.hpp:449-452 | no two clusters ever share a name |
| Directory.RoutingIsTotal | src/master/PostgresRepository.hpp:199-228 | ever after the first cluster was added, every hash routes to a non-empty set of registered workers |
| Directory.SealedStaysSealed | src/master/PostgresRepository.hpp:166-169 | READ_ONLY is never left, whatever heartbeats arrive |
| Directory.NoRouteToSealedWorker | src/master/PostgresRepository.hpp:517-533 | if operators supply only active workers no cluster uses, no hash routes to a sealed worker |
| Directory.ReplaceKeepsActiveIff | src/master/PostgresRepository.hpp:503-535 | without that discipline, exactly when a replacement leaves all clusters on unsealed workers |
| System.RunsRefineLifecycle | src/master/PostgresRepository.hpp:148-577 | every run of administration and lifecycle together is a run of the lifecycle machine |
| System.RoutesAreValid | src/master/PostgresRepository.hpp:203-213 | the routes offered to an init always name registered workers |
| System.InitFailsOnlyOnTombstones | src/master/PostgresRepository.hpp:215-237 | once a cluster exists, an init succeeds if and only if none of its hashes is tombstoned |
| System.NewRowsAvoidSealedWorkers | src/master/PostgresRepository.hpp:223-226 | with disciplined operators no new row is placed on a sealed worker |
| System.NewRowsLieOnOwningCluster | src/master/PostgresRepository.hpp:199-226 | on every run of administration and lifecycle a new row lies on exactly the registered workers of the cluster that owns its bucket |
| Sync.Semaphore.Acquire | src/common/Semaphore.hpp:14-20 | takes one permit, and only when one is free |
| Sync.Semaphore.Release | src/common/Semaphore.hpp:22-27 | gives one permit back |
| Slicer.ComputeHashes | src/client/file/LocalFileSlicer.cpp:16-82 | under every schedule there are ceil(size/c) results and result i is the digest of slice i |
| Slicer.HashRemaining | src/client/file/LocalFileSlicer.cpp:34-76 | one producer and the pool hash what a sequential reader would read, without deadlock, and all 32 permits are back at the end |
| Slicer.Submit | src/client/file/LocalFileSlicer.cpp:38-50 | submitting a chunk takes its permit: count plus chunks in flight is unchanged |
| Slicer.Release | src/client/file/LocalFileSlicer.cpp:55-57 | a hashed chunk gives its permit back: count plus chunks in flight is unchanged |
| Slicer.ChunkExists | src/client/file/LocalFileSlicer.cpp:34-36 | chunk i exists if and only if it starts inside the file |
| Slicer.SliceIs | src/client/file/LocalFileSlicer.cpp:94-106 | slice i is exactly those of the bytes i*c to (i+1)*c that the file has |
| Slicer.OnlyLastIsShort | src/client/file/LocalFileSlicer.cpp:100-104 | every chunk is non-empty, and only the last can be short |
| Slicer.SecondPassIff | src/client/file/LocalFileSlicer.cpp:94-106 | reading a list of chunks on one stream returns the right slices if and only if a short chunk is read last or not at all |
| Slicer.SecondPassReadsFirst | src/client/file/LocalFileSlicer.cpp:84-106 | every strictly increasing list is read right: the second pass reads what the first one hashed |
| Slicer.LocalFileSlicer.OpenStream | src/client/file/LocalFileSlicer.cpp:84-92 | reopening clears the stream bits |
| Slicer.LocalFileSlicer.ReadChunk | src/client/file/LocalFileSlicer.cpp:94-106 | one seek and one read on the bits the previous read left |
| StateManager.LocalStateManager.AppendCompletedIndices | src/client/state/LocalStateManager.cpp:50-66 | the log gains exactly the given indices |
| StateManager.LocalStateManager.LoadUploadManifest | src/client/state/LocalStateManager.cpp:68-107 | bit i is set if and only if an in-range i is in the log |
| StateManager.LocalStateManager.SaveUploadManifest | src/client/state/LocalStateManager.cpp:109-128 | the manifest file holds the blueprint, and the log is untouched |
| StateManager.LocalStateManager.DeleteUploadManifest | src/client/state/LocalStateManager.cpp:130-143 | manifest and log go together |
| Correlation.Correlate | src/client/DSEClient.cpp:185-198 | the loop, which may stop early, computes the whole greedy pass |
| Correlation.CorrelationIsExact | src/client/DSEClient.cpp:185-198 | on the server's plan the pass consumes every entry, and what is pending are exactly the strictly increasing indices missing on the server and not marked complete, each with its own entry |
| Correlation.TasksArePending | src/client/DSEClient.cpp:185-198 | those tasks are the pending map of the lifecycle machine |
| Upload.UploadChunkToWorker | src/client/network/ParallelTransferManager.cpp:24-51 | succeeds if and only if the bytes have the declared digest and the worker takes them at one of three attempts |
| Upload.Dispatch | src/client/network/ParallelTransferManager.cpp:107-130 | one permit for each task whatever its replicas, and it goes straight back when there is none |
| Upload.FinishJob | src/client/network/ParallelTransferManager.cpp:132-160 | logging, release of the shared permit and acknowledgement keep permits plus tasks in flight equal to 16 and fewer than 64 entries unflushed |
| Upload.RunTransfer | src/client/network/ParallelTransferManager.cpp:107-163 | under every interleaving the transfer ends with all requests settled, all 16 permits back, fewer than 64 entries unflushed and the log accounting exact |
| Upload.LogIndex | src/client/network/ParallelTransferManager.cpp:141-148 | an acknowledged index is buffered, and the 64th buffered entry flushes them all in order |
| Upload.Upload | src/client/network/ParallelTransferManager.cpp:94-179 | true only if every replica of every task acknowledged; on any return the log gained exactly the indices with an acknowledgement; each acknowledged replica got bytes with the hash it was sent them for; false only after a pause or a send a worker could refuse |
| Upload.PayloadsAreSlices | src/client/network/ParallelTransferManager.cpp:107-130 | for in-range increasing tasks the bytes transmitted are exactly the file's slices |
| Download.DownloadChunkFromReplica | src/client/network/ParallelTransferManager.cpp:53-91 | accepts only bytes of the exact size and digest; fails only if no replica reliably serves them |
| Download.LastPlanRoutes | src/client/network/ParallelTransferManager.cpp:187-191 | the routing map has exactly the hashes of the plans, each with the nodes of its last plan |
| Download.Receive | src/client/network/ParallelTransferManager.cpp:65-76 | whatever the pieces, the buffer is complete if and only if it was filled exactly, and then it is the body |
| Download.WriteOneChunk | src/client/network/ParallelTransferManager.cpp:274-278 | a positional write puts its chunk in place and moves no byte of another |
| Download.VerifyPartial | src/client/network/ParallelTransferManager.cpp:219-240 | the resume pass marks exactly the positions that already hold their chunk, unless paused |
| Download.DownloadToFile | src/client/network/ParallelTransferManager.cpp:182-295 | from any prior bytes and under every completion order, true means every range has its chunk's hash; no outcome spoils a right range; right ranges are not fetched again; failure means some chunk had no serving replica, and false means a pause |
| Client.ChunkSizes | src/client/DSEClient.cpp:345-365 | counting down the bytes remaining gives each position the length of its slice |
| Client.DSEClient.Begin | src/client/DSEClient.cpp:104-168 | a manifest is taken up again if and only if it names chunks, its size and stamp are the file's, and it is at most 82800 s old; otherwise hashing starts anew with an empty log |
| Client.HashesAre | src/client/DSEClient.cpp:65 | there is one hash for each full or begun megabyte of the file, and each is the digest of exactly its bytes |
| Client.DSEClient.UploadFile | src/client/DSEClient.cpp:63-250 | nothing is done when the server lists the name; a transfer needs two inspections of the file, a commit three, that see one size and one time stamp; a commit carries the hashes and size of the file as it stands, after all pending replicas acknowledged and every missing chunk was delivered in this session; the log stays sound for the next attempt; an undisturbed attempt the server can answer always reaches its commit |
| Client.AnswerableIff | src/master/PostgresRepository.hpp:187-249 | the server can answer if and only if no hash is a tombstone and each missing one has a registered worker to go to |
| Client.UnmodifiedMeansCurrent | src/client/DSEClient.cpp:114-116 | a manifest whose size and stamp still fit has the hashes of the file as it is now, even if it was saved by an aborted attempt |
| Client.SendsSucceed | src/client/network/ParallelTransferManager.cpp:107-138 | for the plan of an unmodified file no accepting worker refuses a chunk: each pending index is read right and matches its plan entry |
| Client.AllServed | src/client/DSEClient.cpp:213-229 | after a successful run every chunk the server missed has been acknowledged by a replica in this session |
| Client.DSEClient.DownloadFile | src/client/DSEClient.cpp:326-437 | the output has every chunk of the plan in place; a pause keeps the progress, a cancellation removes the file |
| RoundTrip.SizedCoversFile | src/client/DSEClient.cpp:345-365 | for every length, including 0 and exact multiples, the computed sizes lay the slices end to end over the file |
| RoundTrip.ChunksFitWorkers | src/worker/WorkerServer.hpp:19 | no chunk of a file is empty, over a megabyte, or over a worker's payload limit |
| RoundTrip.StoreChunk | src/worker/WorkerServer.hpp:22-61 | a healthy worker stores what the client sends of its file if and only if its encryption fits above 50 MB, and serves it back |
| RoundTrip.CompleteIffIdentical | src/client/network/ParallelTransferManager.cpp:182-295 | a download of a file's chunks is complete if and only if it is the identical file |
| Attempts.AttemptIsLifecycle | src/client/DSEClient.cpp:170-229 | what an attempt does is a path of the lifecycle machine, log entries included, and a commit it asks for is one the machine allows |
| Attempts.AttemptEnds | src/client/DSEClient.cpp:231-250 | so is its end, by failure, answered or unanswered commit; but for an answered one the session waits with the same log for the next attempt |
| Attempts.ResumedFindsLog | src/client/DSEClient.cpp:104-135 | a resumed attempt starts from exactly what the one before found and got acknowledged |
| Attempts.SeriesKeepsLog | src/client/state/LocalStateManager.cpp:50-107 | on every run of everybody, over any series of attempts, the client's log file and the machine's session log agree at every attempt |
| Attempts.ClientLogIsStored | src/client/DSEClient.cpp:185-198 | an accepted resume of any later attempt is not refused, and each index its log lets it skip is a chunk some replica stores |
| RoundTrip.UploadThenDownload | src/client/DSEClient.cpp:326-385 | whatever others did since the commit, the plan has the file's size and hashes, and a complete download is the identical file |
| RoundTrip.EveryChunkIsServable | src/client/network/ParallelTransferManager.cpp:242-268 | every chunk of a committed file has a route with a replica that stores it, at every later moment |
| RoundTrip.DownloadUploaded | src/client/DSEClient.cpp:326-437 | downloading a committed file never fails while its replicas answer, is finished unless paused, and outputs the identical bytes |
| DiskReserve.ReserveHolds | src/worker/LocalDiskStorage.hpp:23-45 | under any interleaving the counter equals the live reservations, and from the first admission on free space covers all unwritten bytes and 52428800 more, less what other programs took |
| DiskReserve.SpaceIsConserved | src/worker/LocalDiskStorage.hpp:77-106 | free space is what there was, less what saves and other programs put on the disk, plus what was freed |
| DiskReserve.WritesNeverFail | src/worker/LocalDiskStorage.hpp:77-106 | alone on its disk, a live save always has room for its remaining bytes above the floor |
| DiskReserve.GuardIsExactIff | src/worker/LocalDiskStorage.hpp:36-42 | the guard admits only what has room, and all that has room if and only if nothing has or no live save has written anything |
| DiskReserve.GuardIsExactUntilWritten | src/worker/LocalDiskStorage.hpp:36-42 | on every run of a worker alone on its disk, while a save is live the guard is exact if and only if nothing has been written |
| DiskReserve.WrittenSaveBlocksFittingOne | src/worker/LocalDiskStorage.hpp:77-103 | a run of a fresh worker in which a save that exactly fits is refused because another is written but not released |
| Worker.LocalDiskStorage.ReserveSpace | src/worker/LocalDiskStorage.hpp:23-45 | reserves if and only if the query succeeded and available less in-flight bytes is at least the size and 52428800, and refuses without effect |
| Worker.LocalDiskStorage.SaveChunk | src/worker/LocalDiskStorage.hpp:61-107 | among any other handlers, a healthy disk saves exactly what fits above the floor, success means the bytes load back, and the reservation is released on every path |
| Worker.LocalDiskStorage.LoadChunk | src/worker/LocalDiskStorage.hpp:110-139 | the decrypted file, or nothing when it is absent or does not decrypt |
| Worker.LocalDiskStorage.DeleteChunk | src/worker/LocalDiskStorage.hpp:142-158 | true means gone, also when it was not there |
| Worker.WorkerServer.Post | src/worker/WorkerServer.hpp:19-48 | stores a body only under its own digest; 413 if and only if it is over 1049600 bytes, else 400 if and only if the hash is empty or does not match, both without effect; a healthy worker stores any other if and only if it fits above the floor |
| Worker.WorkerServer.Get | src/worker/WorkerServer.hpp:51-61 | serves only bytes with the digest asked for; 404 means absent or empty |
| Worker.WorkerServer.Delete | src/worker/WorkerServer.hpp:64-73 | 200 if and only if the chunk was removed or already absent |
| SessionToken.Split | src/common/crypto.hpp:244-250 | the getline loop yields the segments, without an empty last one |
| SessionToken.ParsePrinted | src/common/crypto.hpp:187 | parsing a printed number gives it back if and only if it is in range, and the text holds no dot |
| SessionToken.PrintIsCanonical | src/common/crypto.hpp:187 | a printed number is digits without a leading zero, after a minus sign exactly when it is negative |
| SessionToken.ParseNumeral | src/common/crypto.hpp:269-282 | spaces, at most one sign, digits and a rest are read as the digits under their sign, if in range |
| SessionToken.ParsedIsNumeral | src/common/crypto.hpp:269-282 | nothing else is read as a number |
| SessionToken.SegmentsIff | src/common/crypto.hpp:244-255 | three dot-free parts, the last non-empty, come from exactly two texts |
| SessionToken.VerifySessionToken | src/common/crypto.hpp:242-289 | accepts exactly a text made of two dot-free fields and their tag, with at most one stray dot, not expired, and names the user of the first field |
| SessionToken.TokenRoundTrip | src/common/crypto.hpp:179-190 | a generated token names its user up to and including 86400 s after issue, and nobody afterwards |

## Left out

- Cryptographic internals (AES-CBC, SHA-256, HMAC, PBKDF2, salts): parameters of the model, as stated above.
- HTTP transport, JSON encoding, nginx, containers and the command line, except that a user may pause or cancel a transfer at any point.
- Statement-level interleaving and isolation anomalies of PostgreSQL: transactions are atomic.
- Repository.PostgresRepository.GetDownloadPlan: assumes at most one file row under the user and name. With several rows the source pairs one row's size with the chunks of all of them; the ledger and the safety theorems do cover several rows.
- Client.DSEClient.DownloadFile: assumes a non-negative file size, which every commit of the client sends.
- RoundTrip.UploadThenDownload: assumes one row under the name when it is downloaded, and no digest collision between the file's slices and the downloaded ranges.
- Worker.WorkerServer.Post: a failed write leaves the old file in place, by the assumption that saves are all-or-nothing; the source truncates the file first.
- Client.DSEClient.UploadFile: the second pass reads one version of the file; a worker refuses bytes of any other version, because their digest does not match.
- Slicer.ComputeHashes: reads one version of the file; a file that changes during the pass is caught by the client's size and time-stamp checks.
- Upload.Upload: exceptions thrown by the logging call inside a task are not modelled.
- Download.DownloadToFile: a failed transfer is an error result; what happens to pool threads still running while the exception unwinds is not modelled.
- GcDaemon.Sweep: the clock stands still and clients are quiet during a sweep; interference is covered by the lifecycle machine, in which a shutdown in mid-batch is the step `Crash`.
- Torn log lines, silently failed manifest saves, base-name collisions of manifests and an unreadable directory.
- Column widths, integer overflow of counts and sizes, and a bucket count below 1.
- The order of workers inside a plan entry: node lists are sets, and replicas are tried in any order.
- Sign-up, login, public files, telemetry, retry delays and heartbeat timing: no hard property lives there.
