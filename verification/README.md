# A verified model of the key/value server

This project models the core of a sharded key/value server and proves what it is meant to
keep. It covers the tombstoned in-memory cache, the lock protocol of its set map, the query
evaluator, sharded lookup, the loading pipeline with its delta files, the seekable blob
stream and the rate limiter of the request simulator. `dafny verify dfyconfig.toml` checks
all of it.

The modules, bottom up:

- `Registers` is the theory both stores share: last-writer-wins registers with tombstones,
  a rising cutoff and garbage collection. `Register` is the reference that never forgets a
  tombstone; `Collected` is the store that does.
- `KeyValueCaches` is the cache as a class. Its ghost fields `kvLog` and `setLog` are the
  histories of its two maps, and `Valid` ties every cell to them. `CacheRuns` runs whole
  sequences of calls.
- `SetMapProtocol` is the set map under concurrent calls, lock by lock. `SetMapInvariants`,
  `SetMapSteps` and `SetMapTheorems` prove what every step keeps and every reachable state
  has, `SetMapHistories` what holds along runs, `SetMapCleanUps` which tombstones a clean-up
  leaves, `SetMapProgress` and `SetMapTermination` that calls neither deadlock nor run forever.
- `Query`, `StringPadder`, `Lookup` and `ShardedLookup` are the read path, from the stack
  machine of a query up to the merged answer of all shards.
- `DataLoading` and `LoadingTheorems` are the write path: shard filtering, retries, and exactly
  when a shard holds what one server would. `ShardedDeployment` joins both paths end to end.
- `FileNames`, `DeltaFiles` and `DeltaPipeline` are the order in which files are loaded, and
  `PipelineLoading` says what the cache holds along the way.
- `SeekingStream` and `RateLimiters` stand alone; `Basics` is shared.

Lemmas switch automatic induction off, so every inductive argument is spelled out.

Parameters stand for what the code calls but does not define: the sharding hash (any function
into the range of shards), the serialisation of requests (any function with an inverse),
failures of remote shards, listings of the bucket (by the contract of `ListBlobs`), the
records a reader delivers and whether it got through, the metadata of a file, the clock, and
the number of bytes a blob source returns. Encryption and transport are the identity on
success. A repeated field that the code fills from a hash set is a set.

Some results say where a tempting statement about the code fails:

- A clean-up that runs between the two critical sections of a set delete leaves that delete's
  tombstone behind (`CleanUpMissesDeleteInFlight`). It leaves nothing else
  (`CleanUpLeavesOnlyPending`). Which tombstones it leaves is decided when it takes the map
  lock: exactly those that the log prescribes, that the index does not know, and that are in
  the memory or about to be written (`CleanUpMissesIff`). In particular it leaves none if no
  delete is between its key lock and its indexing at that moment (`CleanUpIsComplete`).
- The read loop of the stream puts every chunk at the beginning of its buffer, so it assembles
  every blob if and only if the first read of a request returns all of it
  (`AssemblesIffFirstReadFills`), although the header allows a source to return fewer bytes. On
  a read of zero bytes it asks again with the same arguments, forever if the answer stays the
  same.
- After a failed read the stream keeps its get area but not its buffer, so a later seek can
  leave it elsewhere than it says (`SeekAfterFailedRead`); it is where it says if and only if
  the seek leaves the window or the buffer still has the length of the get area (`Seekoff`).
- Files that turn up after everything handed over, but before something already listed, are
  missed (`AheadOfHandedIsNotEnough`); a file is missed exactly if it turns up at or behind
  the last name listed (`ListingIsComplete`).
- Shards can hold more than one server fed the same stream when that server drops a late write
  at its cutoff (`DroppedWriteDiverges`). A shard and that server agree on a register if and
  only if the shard admitted nothing newer than all that server admitted, and both were offered
  the same entry first at the time that wins (`ShardAgreesIff`). Ties between events are settled
  alike by all servers. Ties within one event are if the records do not conflict or come in the
  same order (`TiesAreSettled`). Servers that see whole events in different orders agree if
  nothing is dropped and nothing conflicts (`ShardHoldsInAnyOrder`).
- On an empty query the local lookup builds its result from an OK status, which the status
  library turns into an internal error (`ProcessQuery`), while the sharded lookup answers with
  no elements (`RunQuery`). On every other query, syntax errors included, the two agree
  (`QueryEqualsUnion`).

One comment of the source disagrees with its code, which the model follows: the comment above
`GetKeyValues` in `components/internal_server/sharded_lookup.cc` promises an empty response
and an internal error when any shard fails, but the code marks only the keys of that shard.

## Model

| member | source | states |
|---|---|---|
| `Registers.CollectionIsInvisible` | components/data_server/cache/key_value_cache.cc:286-345 | over every history, forgetting tombstones at clean-ups differs from never forgetting them in old tombstones only, so reads cannot tell and no live entry is lost |
| `Registers.CollectionIsComplete` | components/data_server/cache/key_value_cache.cc:279-345 | after a clean-up no tombstone at or below its time, or any earlier clean-up's time, is left |
| `Registers.LastWriterWins` | components/data_server/cache/key_value_cache.cc:106-129 | over every history, with dropped writes or not, a register holds the first entry offered at the largest commit time admitted, and nothing exactly if nothing was admitted |
| `Registers.DecidingWrite` | components/data_server/cache/key_value_cache.cc:106-129 | a register holds the payload and time of one write of the history: one above every clean-up before it, with no newer such write and none of the same time before it; and nothing if there is no such write |
| `Registers.AdmittedDecides` | components/data_server/cache/key_value_cache.cc:106-129 | if one history admits whatever another does, their registers are equal if and only if it admitted nothing newer and both were offered the same entry first at the winning time |
| `Registers.OrderIsIrrelevant` | components/data_server/cache/key_value_cache.cc:90-277 | two histories of the same conflict-free, undropped writes leave a register equal, wherever their clean-ups fall |
| `Registers.SameWritesSettleAlike` | components/data_server/cache/key_value_cache.cc:106-129 | offering the same conflict-free writes in another order or repeatedly has the same outcome, ties with earlier content and dropped writes included |
| `KeyValueCaches.KeyValueCache.constructor` | components/data_server/cache/key_value_cache.h:84-145 | a new cache is valid with empty histories |
| `KeyValueCaches.KeyValueCache.GetKeyValuePairs` | components/data_server/cache/key_value_cache.cc:44-61 | the answer has exactly the asked keys that are live in the reference of the history, with its values |
| `KeyValueCaches.KeyValueCache.UpdateKeyValue` | components/data_server/cache/key_value_cache.cc:90-129 | the map behaves as the history extended by one write; every tombstone stays indexed though one index entry may be erased |
| `KeyValueCaches.KeyValueCache.DeleteKey` | components/data_server/cache/key_value_cache.cc:192-212 | the map behaves as the history extended by one tombstone, which is indexed at its own time |
| `KeyValueCaches.KeyValueCache.CleanUpKeyValueMap` | components/data_server/cache/key_value_cache.cc:286-309 | despite stale index entries exactly the tombstones at or below the time go, and the cutoff rises |
| `KeyValueCaches.KeyValueCache.GetKeyValueSet` | components/data_server/cache/key_value_cache.cc:63-87 | for every asked key the values returned are exactly those live in the reference of the history |
| `KeyValueCaches.KeyValueCache.UpdateKeyValueSet` | components/data_server/cache/key_value_cache.cc:131-190 | the set map behaves as the history extended by one write to all pairs of the call; no key gets an empty inner map |
| `KeyValueCaches.KeyValueCache.DeleteValuesInSet` | components/data_server/cache/key_value_cache.cc:214-277 | the set map behaves as the history extended by one tombstone per pair, each indexed at its own time |
| `KeyValueCaches.KeyValueCache.CleanUpKeyValueSetMap` | components/data_server/cache/key_value_cache.cc:311-345 | exactly the tombstones at or below the time go, emptied inner maps go with them, and the cutoff rises |
| `KeyValueCaches.KeyValueCache.RemoveDeletedKeys` | components/data_server/cache/key_value_cache.cc:279-284 | both maps lose exactly the tombstones at or below the time and keep every other cell |
| `CacheRuns.AnswersMatchReference` | components/data_server/cache/key_value_cache.cc:44-345 | after any run of updates, deletes and clean-ups, both reads answer as a store that keeps every tombstone forever |
| `CacheRuns.DeliveryOrderIsIrrelevant` | components/data_server/cache/key_value_cache.cc:90-277 | two runs of the same conflict-free, undropped mutations in any order, with clean-ups anywhere, give identical answers |
| `SetMapTheorems.NextKeeps` | components/data_server/cache/key_value_cache.cc:63-345 | every step of every interleaving of updates, deletes, clean-ups and readers keeps the invariant |
| `SetMapTheorems.MemoryIsSafe` | components/data_server/cache/key_value_cache.cc:311-345 | in every reachable state no call points to an erased entry, a written or erased-from inner map is locked by no other call, and only a map under erasure can be empty |
| `SetMapTheorems.TombstonesAreTracked` | components/data_server/cache/key_value_cache.cc:214-277 | in every reachable state each tombstone is indexed at its own time or pending in a delete in flight |
| `SetMapTheorems.CleanUpLeavesOnlyPending` | components/data_server/cache/key_value_cache.cc:311-345 | when a clean-up ends, a tombstone at or below its time is left only where a delete in flight has still to index it |
| `SetMapTheorems.Linearizable` | components/data_server/cache/key_value_cache.cc:131-345 | mutations and clean-ups take effect one at a time, each exactly once, and the live values of every pair no call is still writing are those of the log under the reference |
| `SetMapTheorems.LogSaysWhatCallsDo` | components/data_server/cache/key_value_cache.cc:131-345 | the log entry of a mutation writes all pairs of the call, as tombstones exactly if the call is a delete, and that of a clean-up collects up to its time |
| `SetMapTheorems.LiveIffLastCallUpdates` | components/data_server/cache/key_value_cache.cc:131-277 | in every reachable state a value that no call is still writing is live in the memory if and only if the call that decides it, newest in time and first among equals, is no delete |
| `SetMapTheorems.ResultsStayCurrent` | components/data_server/cache/get_key_value_set_result_impl.cc:36-62 | while a read result lives, each value set in it equals the current live values of its key and those of the log |
| `SetMapTheorems.ReadIsSnapshot` | components/data_server/cache/key_value_cache.cc:63-87 | when a read releases the map lock, its answer for every asked key, found or not, is that of the log at this moment |
| `SetMapTheorems.ScheduleIsIrrelevant` | components/data_server/cache/key_value_cache.cc:131-277 | two finished runs of the same conflict-free, undropped writes agree on every pair, whatever the interleaving |
| `SetMapHistories.LogOnlyGrows` | components/data_server/cache/key_value_cache.cc:131-345 | along every run the log of an earlier state is a prefix of the log of a later one, so the order in which calls took effect is never revised |
| `SetMapHistories.CleanUpIsComplete` | components/data_server/cache/key_value_cache.cc:268-345 | if no delete at or before a clean-up's time is between its key lock and its indexing when the clean-up takes the map lock, then at its end no tombstone at or before that time is left, whatever the other calls did meanwhile |
| `SetMapCleanUps.OthersOnlyWrite` | components/data_server/cache/key_value_cache.cc:131-345 | while a clean-up holds the map lock, any other call can only write a value it has still to write, release a key, or drop a read result |
| `SetMapCleanUps.CleanUpMissesIff` | components/data_server/cache/key_value_cache.cc:268-345 | a clean-up leaves an old tombstone of a pair that nobody writes any more if and only if, when it takes the map lock, the log prescribes that tombstone, the index has no entry of the pair at or before its time, and the tombstone is in the memory or some call has still to write the pair |
| `SetMapProgress.NoDeadlock` | components/data_server/cache/key_value_cache.cc:63-345 | in every reachable state with an unfinished call some call can step |
| `SetMapProgress.CleanUpMissesDeleteInFlight` | components/data_server/cache/key_value_cache.cc:268-276 | a reachable state in which all clean-ups are finished and a tombstone at or below the cutoff is left |
| `SetMapTermination.StepUsesUpWork` | components/data_server/cache/key_value_cache.cc:63-345 | every step of every call lowers a lexicographic measure of the work left in all calls |
| `SetMapTermination.CallsCanFinish` | components/data_server/cache/key_value_cache.cc:63-345 | from every reachable state the calls that have arrived can all be brought to their end |
| `Query.Union` | components/query/sets.h:25-32 | inserting the smaller set into the bigger one gives the union |
| `Query.Intersection` | components/query/sets.h:34-42 | erasing from the smaller set gives the intersection |
| `Query.Difference` | components/query/sets.h:44-52 | erasing the right set from the left one gives the difference |
| `Query.PostOrderTraversal` | components/query/ast.cc:32-49 | the reversed stack traversal yields the recursive post-order of the tree |
| `Query.Keys` | components/query/ast.cc:96-142 | exactly the keys of the leaves |
| `Query.MachineComputesMeaning` | components/query/ast.cc:53-79 | on the post-order of any tree the stack machine never underflows and pushes exactly one set, the recursive meaning of the tree |
| `Query.MeaningByElement` | components/query/ast.h:86-117 | a leaf has the elements of its key; union, intersection and difference of two trees have those in one or both, in both, and in the left but not in the right |
| `Query.MeaningReadsLeavesOnly` | components/query/ast.cc:96-144 | the meaning of a tree depends on the sets of its leaf keys only |
| `Query.VisitOpNode` | components/query/ast.cc:53-59 | pops the right and then the left operand and pushes their combination in that order |
| `Query.Compute` | components/query/ast.cc:66-74 | runs the machine over the code and returns the set it ends with |
| `Query.Eval` | components/query/ast.cc:76-79 | evaluation equals the recursive set algebra of the tree, and for each operator the result is given element by element |
| `StringPadder.UnpadUndoesPad` | components/internal_server/string_padder.cc:24-47 | unpadding a padded string gives it back, whatever the padding |
| `StringPadder.Pad` | components/internal_server/string_padder.cc:24-32 | the buffer holds the length, the string and the padding |
| `StringPadder.Unpad` | components/internal_server/string_padder.cc:34-47 | reads the length and the string, and fails exactly on input too short for either |
| `Lookup.ProcessKeys` | components/internal_server/local_lookup.cc:61-81 | one entry per key: not-found exactly if the register of the key in the history is empty or a tombstone, and otherwise its value |
| `Lookup.ProcessKeysetKeys` | components/internal_server/local_lookup.cc:83-105 | one entry per key: not-found exactly if no value of the key is live in the history, and otherwise exactly the live ones |
| `Lookup.ProcessQuery` | components/internal_server/local_lookup.cc:107-134 | the result is the meaning of the query over the live values of the cache; a syntax error and an empty query are errors |
| `Lookup.GetPayload` | components/internal_server/lookup_server_impl.cc:144-153 | the remote side answers a request as the local lookup does, also an empty one |
| `ShardedLookup.BucketKeys` | components/internal_server/sharded_lookup.cc:226-236 | bucket i holds exactly the keys that hash to shard i, each once |
| `ShardedLookup.ComputePadding` | components/internal_server/sharded_lookup.cc:249-259 | paddings are non-negative, bring all requests to one length, and the longest gets none |
| `ShardedLookup.ShardKeys` | components/internal_server/sharded_lookup.cc:261-268 | every shard, also one without keys, gets the serialised request for its keys, padded to one length |
| `ShardedLookup.RequestsAreUniform` | components/internal_server/sharded_lookup.cc:238-268 | all padded requests have identical length and each unpads and parses to exactly the keys of its shard |
| `ShardedLookup.RemoteGetValues` | components/internal_server/remote_lookup_client_impl.cc:64-107 | a remote request that does not fail answers exactly the keys of its bucket as that server holds them |
| `ShardedLookup.GetLookupFutures` | components/internal_server/sharded_lookup.cc:270-298 | fails exactly if a remote shard has no client, and otherwise has the answer or the error of every shard |
| `ShardedLookup.UpdateResponse` | components/internal_server/sharded_lookup.cc:61-77 | the keys of the bucket get their answer or not-found, all other entries stay |
| `ShardedLookup.SetRequestFailed` | components/internal_server/sharded_lookup.cc:79-89 | the keys of the bucket get an internal error, all other entries stay |
| `ShardedLookup.GetKeyValues` | components/internal_server/sharded_lookup.cc:323-353 | exactly one entry per distinct key: an internal error if its shard failed; else not-found exactly if the register on its shard is empty or a tombstone, and otherwise its value |
| `ShardedLookup.CollectKeySets` | components/internal_server/sharded_lookup.cc:355-382 | adds the sets of one answer and ignores not-found entries |
| `ShardedLookup.GetShardedKeyValueSet` | components/internal_server/sharded_lookup.cc:384-410 | the live values of every key from its shard, or the error of the first failed shard even if it was asked for nothing |
| `ShardedLookup.GetKeyValueSet` | components/internal_server/sharded_lookup.cc:125-155 | one entry per key, not-found exactly if no value is live on its shard and otherwise exactly the live ones; all or nothing on failures |
| `ShardedLookup.RunQuery` | components/internal_server/sharded_lookup.cc:157-211 | the meaning of the query over the live values of the shards; syntax errors, missing clients and failed shards are errors |
| `ShardedLookup.LookupEqualsUnion` | components/internal_server/sharded_lookup.cc:119-123 | a sharded lookup equals the lookup on one server that shows the union of the shards for every key of a healthy shard, and marks every key of a failed one |
| `ShardedLookup.SetsEqualUnion` | components/internal_server/sharded_lookup.cc:125-155 | with no failure a sharded lookup of sets equals that on one server that shows the union of the shards |
| `ShardedLookup.QueryEqualsUnion` | components/internal_server/sharded_lookup.cc:157-211 | with no failure a sharded query equals the query on one server that shows the union of the shards if and only if the query is not empty; syntax errors included |
| `DataLoading.ExactlyOneShardAccepts` | components/data_server/data_loading/data_orchestrator.cc:89-107 | with more than one shard every mutation is accepted by exactly one |
| `DataLoading.ApplyKeyValueMutationToCache` | components/data_server/data_loading/data_orchestrator.cc:109-135 | an update or delete of a string or a set adds exactly that write or tombstone to the history of its map, leaves the other one and raises the maximal time; any other mutation is an error that changes nothing |
| `DataLoading.ApplyAndLookup` | components/data_server/data_loading/data_orchestrator.cc:109-135 | after a string record newer than what the cache has, a lookup finds the value of an update and does not find the key of a delete |
| `DataLoading.ApplyAndLookupSet` | components/data_server/data_loading/data_orchestrator.cc:109-135 | the same for every value of a set record |
| `DataLoading.LoadCacheWithData` | components/data_server/data_loading/data_orchestrator.cc:137-181 | the histories grow by the accepted records in order; the result is the largest time applied |
| `DataLoading.LoadCacheWithDataFromFile` | components/data_server/data_loading/data_orchestrator.cc:184-220 | a file of another shard is skipped, a failed load applies records without a clean-up, a complete one cleans up at the largest time applied |
| `DataLoading.LoadUntilOk` | components/data_server/data_loading/data_orchestrator.cc:352-360 | the histories grow by every failed attempt and the first successful one |
| `DataLoading.LoadStream` | components/data_server/data_loading/data_orchestrator.cc:298-321 | a server to which the events of a stream happen, records of messages possibly between those of a file, has the histories of that stream |
| `LoadingTheorems.OpsOffered` | components/data_server/data_loading/data_orchestrator.cc:137-181 | a load offers to a register exactly what its accepted records carry, whatever their order |
| `LoadingTheorems.MaxTimestampIsMaximum` | components/data_server/data_loading/data_orchestrator.cc:109-135 | the clean-up time is the largest time among the applied records, and at least 0 |
| `LoadingTheorems.ConflictFreeSameTies` | components/data_server/cache/key_value_cache.cc:106-129 | records of one event may come in any order without changing who wins a tie of a register, if no two of them conflict |
| `LoadingTheorems.ShardCutoff` | components/data_server/data_loading/data_orchestrator.cc:184-220 | fed the same events, a shard's cutoff never exceeds that of a server that takes every record |
| `LoadingTheorems.ShardAdmits` | components/data_server/data_loading/data_orchestrator.cc:89-135 | a write that the server taking every record admits is admitted by its shard, and both are offered the same writes |
| `LoadingTheorems.ShardAgreesIff` | components/data_server/data_loading/data_orchestrator.cc:89-220 | a register is equal on its shard and on a server that takes every record if and only if nothing the shard admitted is newer than all that server admitted and both were offered the same entry first at the winning time |
| `LoadingTheorems.ShardHoldsRegister` | components/data_server/data_loading/data_orchestrator.cc:89-220 | in particular it is equal if that server drops no write of the register and ties of it within one event come in the same order |
| `LoadingTheorems.StreamOffered` | components/data_server/data_loading/data_orchestrator.cc:89-181 | a stream offers to a register of a server exactly what the records of its events carry for it, whatever the order of events and records |
| `LoadingTheorems.ShardHoldsInAnyOrder` | components/data_server/data_loading/data_orchestrator.cc:89-220 | with different orders of events and clean-ups anywhere, a register is still equal if neither server drops a write of it and no two of its writes conflict |
| `LoadingTheorems.DroppedWriteDiverges` | components/data_server/data_loading/data_orchestrator.cc:184-220 | for every hash, a late write that the single server drops is kept by its shard |
| `LoadingTheorems.RetriesLeaveNoTrace` | components/data_server/data_loading/data_orchestrator.cc:352-360 | any number of failed attempts, each applying any records of a conflict-free file in any order, then a full load leave every register and the cutoff as one clean load does |
| `LoadingTheorems.LoadWithRetries` | components/data_server/data_loading/data_orchestrator.cc:184-220 | the same for both maps of a cache |
| `ShardedDeployment.KvHoldsIff` | components/data_server/data_loading/data_orchestrator.cc:89-220 | a key is held alike by its shard and by one unsharded server fed the same stream if and only if its shard admitted no newer write and the winning tie came in the same order |
| `ShardedDeployment.SetHoldsIff` | components/data_server/data_loading/data_orchestrator.cc:89-220 | the same for every value of a key of sets |
| `ShardedDeployment.TiesAreSettled` | components/data_server/data_loading/data_orchestrator.cc:137-181 | ties within one event are settled alike by every shard that applies its records in the order of the single server, and by all shards if no two of its records conflict |
| `ShardedDeployment.ShardsFormUnion` | components/data_server/data_loading/data_orchestrator.cc:89-220 | shards together show what one unsharded server shows: fed one stream of which that one drops no write, or the same conflict-free records in different orders if no server drops one |
| `ShardedDeployment.LoadFile` | components/data_server/data_loading/data_orchestrator.cc:352-360 | a cache that holds a stream, after a file was loaded with any failed attempts, holds the stream with the clean load of that file; a file of another shard adds nothing |
| `ShardedDeployment.PiecesSettle` | components/data_server/data_loading/data_orchestrator.cc:137-181 | records of messages and of a file delivered in any order, in any pieces and repeatedly, and then the clean-up of the file leave every register and the cutoff as one delivery of them would |
| `ShardedDeployment.LoadInterleaved` | components/data_server/data_loading/data_orchestrator.cc:298-321 | a file whose records reach the cache in pieces between those of real-time messages leaves the cache holding the stream with all of them and the clean-up of the file |
| `ShardedDeployment.ItemsCarry` | components/data_server/data_loading/data_orchestrator.cc:184-220 | the stream of a server carries exactly the records of its files not meant for another shard and of its messages |
| `ShardedDeployment.LoadItems` | components/data_server/data_loading/data_orchestrator.cc:298-362 | a server that loads files with retries and real-time messages, between the files or among their records, holds the stream of their clean loads |
| `ShardedDeployment.ShardedAnswersMatch` | public/sharding/sharding_function.cc:24-27 | end to end, a sharded deployment fed one stream, or one conflict-free stream in different orders, answers every lookup as one server that drops nothing of it, keys of failed shards marked |
| `ShardedDeployment.ShardedSetsMatch` | public/sharding/sharding_function.cc:24-27 | end to end, the same for lookups of sets when no shard fails |
| `ShardedDeployment.ShardedQueriesMatch` | public/sharding/sharding_function.cc:24-27 | end to end, the same for every query but the empty one when no shard fails |
| `ShardedDeployment.Deploy` | components/data_server/data_loading/data_orchestrator.cc:262-362 | shards started from nothing, each with its own retries and interleavings, and one unsharded server form a cluster fed alike |
| `ShardedDeployment.DeployAndLookup` | components/internal_server/sharded_lookup.cc:119-123 | such a deployment answers a sharded lookup as the unsharded server does, whatever shards fail, with exactly the keys of failed shards marked |
| `ShardedDeployment.DeployAndQuery` | components/internal_server/sharded_lookup.cc:125-211 | the same for lookups of sets and for every query but the empty one when no shard fails |
| `FileNames.LessIsStrictOrder` | components/data/blob_storage/delta_file_notifier.cc:82-104 | the string comparison of file names is a strict total order |
| `FileNames.NameFormats` | public/data_loading/filename_utils.cc:37-56 | delta and snapshot names are exactly the literal prefix with its delimiter and sixteen digits |
| `FileNames.NameExists` | public/data_loading/filename_utils.cc:43-51 | a delta file name can be built for an unsigned 64-bit time if and only if it is below 10^16 |
| `FileNames.NamesKeepOrder` | public/data_loading/filename_utils.cc:27-51 | names are unique and their lexicographic order is the numeric order of the times |
| `FileNames.EveryDeltaNameIsBuilt` | public/data_loading/filename_utils.cc:37-41 | every string in delta file format is the name of exactly the time its digits denote |
| `DeltaFiles.WaitForNotification` | components/data/blob_storage/delta_file_notifier.cc:73-89 | the largest change that names a delta file, or the empty string, or the error |
| `DeltaFiles.ShouldListBlobs` | components/data/blob_storage/delta_file_notifier.cc:93-118 | the bucket is left alone exactly while the flag stands and every notified delta file is before the last key; errors other than a deadline pass through |
| `DeltaFiles.LoadSnapshotFiles` | components/data_server/data_loading/data_orchestrator.cc:374-427 | loads the newest well-named snapshot that has no shard number or that of this shard, and returns its ending delta file; loads none exactly if all belong to other shards; errors come from it or from a newer unreadable one |
| `DeltaFiles.Init` | components/data_server/data_loading/data_orchestrator.cc:262-296 | loads the delta files of the listing in order up to the first failure, and returns the last name or the given start |
| `DeltaPipeline.FileQueue.EnqueueNewFilesToProcess` | components/data_server/data_loading/data_orchestrator.cc:365-370 | the file is taken after all files waiting |
| `DeltaPipeline.FileQueue.TakeFileToProcess` | components/data_server/data_loading/data_orchestrator.cc:332-351 | woken up, takes the file that waits longest, or none when the server stops |
| `DeltaPipeline.FileQueue.DeliverListing` | components/data/blob_storage/delta_file_notifier.cc:156-170 | exactly the delta files of the listing are queued in order and the last key becomes the last of them |
| `DeltaPipeline.Start` | components/data_server/data_loading/data_orchestrator.cc:262-296 | initialisation succeeds exactly if every listed delta file loads, and leaves the pipeline in an initial state of its runs |
| `DeltaPipeline.NextKeepsInv` | components/data/blob_storage/delta_file_notifier.cc:120-172 | every step of bucket, watcher and loader keeps the listed files in strictly ascending order after the start and accounts for every file up to the last one listed |
| `DeltaPipeline.LoadsAreOrdered` | components/data_server/data_loading/data_orchestrator.cc:332-370 | over every run delta files are loaded in strictly ascending order, so none twice, and only after the snapshot's ending delta file |
| `DeltaPipeline.HistoryOnlyGrows` | components/data_server/data_loading/data_orchestrator.cc:332-370 | nothing listed is ever lost or overtaken |
| `DeltaPipeline.LateFilesAreNeverListed` | components/data/blob_storage/delta_file_notifier.cc:120-172 | a file that turned up behind what was listed is never listed |
| `DeltaPipeline.ListingIsComplete` | components/data/blob_storage/delta_file_notifier.cc:147-170 | after a successful listing a delta file in the bucket after the start has been listed if and only if it did not turn up late |
| `DeltaPipeline.PunctualFilesAreListed` | components/data/blob_storage/delta_file_notifier.cc:147-170 | if files turn up only ahead of what was listed, a successful listing leaves none behind |
| `DeltaPipeline.ThreadsProgress` | components/data_server/data_loading/data_orchestrator.cc:332-370 | while files are waiting some thread can step, and every step of watcher or loader leaves less to do |
| `DeltaPipeline.WorkCanFinish` | components/data_server/data_loading/data_orchestrator.cc:332-370 | every run can be continued until everything listed is loaded, in order |
| `DeltaPipeline.AheadOfHandedIsNotEnough` | components/data/blob_storage/delta_file_notifier.cc:147-170 | for any two delta names a run in which the smaller turns up after all files handed over and is missed |
| `PipelineLoading.InitCache` | components/data_server/data_loading/data_orchestrator.cc:262-296 | initialisation fails exactly if a load of a listed delta file fails, and otherwise the cache holds what came before, such as a snapshot, and the stream of the delta files loaded |
| `PipelineLoading.PlayStep` | components/data_server/data_loading/data_orchestrator.cc:332-370 | a step of the pipeline, with one load for a step that finishes a file and any failed attempts in it, keeps the cache at the stream of the files loaded |
| `PipelineLoading.PlayRun` | components/data_server/data_loading/data_orchestrator.cc:332-370 | along every run the cache holds what came before and the stream of the files loaded, in ascending order |
| `SeekingStream.AssemblesIffFirstReadFills` | components/data/blob_storage/seeking_input_streambuf.cc:127-144 | the read loop assembles every blob if and only if its first read returns everything asked for; errors, negative counts and reads of zero bytes included |
| `SeekingStream.ReadChunk` | components/data/blob_storage/seeking_input_streambuf.h:98-106 | requires the documented bounds, so every call of the stream is proved to keep them; reads the bytes at the offset, or fails |
| `SeekingStream.ReadWindow` | components/data/blob_storage/seeking_input_streambuf.cc:129-144 | each chunk is written to the beginning of the buffer until the total is reached, a read fails, or a count is negative; for a loop that ends |
| `SeekingStream.SeekingInputStreambuf.Underflow` | components/data/blob_storage/seeking_input_streambuf.cc:116-154 | nothing happens at the end of the blob or while the size is unavailable; a failed or empty read gives no byte, skips the bytes counted before it and leaves the get area behind; a full first read makes the buffer a window at the cursor whatever happened before |
| `SeekingStream.SeekingInputStreambuf.Seekoff` | components/data/blob_storage/seeking_input_streambuf.cc:60-114 | fails, without moving, exactly on a negative offset from the start, a positive one from the end, or an unavailable size; else reports the offset from the start, the cursor or the end, kept within the blob, and is there if and only if it left the window or the buffer still has the length of the get area |
| `SeekingStream.SeekingInputStreambuf.Tell` | components/data/blob_storage/seeking_input_streambuf.cc:60-114 | a seek by nothing from the current position reports the cursor and leaves it |
| `SeekingStream.SeekingInputStreambuf.Reposition` | components/data/blob_storage/seeking_input_streambuf.cc:97-111 | the buffer is kept exactly if the position lies in its window; the cursor lands on the position if and only if it does not, or the buffer still has the length of the get area |
| `SeekingStream.SeekingInputStreambuf.Size` | components/data/blob_storage/seeking_input_streambuf.cc:172-185 | the size of the blob, kept from the first answer on; fails only before that, without effect |
| `SeekingStream.SeekingInputStreambuf.ReadBytes` | components/data/blob_storage/seeking_input_streambuf.cc:116-170 | a block read across refills is the stretch of the blob at the cursor |
| `SeekingStream.RunScript` | components/data/blob_storage/seeking_input_streambuf.cc:60-170 | for every blob, buffer size and script of reads and seeks over a filling source whose size is available, bytes and positions are those of a plain cursor over the blob |
| `SeekingStream.SeekAfterFailedRead` | components/data/blob_storage/seeking_input_streambuf.cc:60-154 | for every blob longer than the buffer but not twice as long, a seek back after a failed read leaves the stream elsewhere than it says |
| `RateLimiters.EarnedInPieces` | tools/request_simulation/rate_limiter.cc:39-50 | rounding at every refill earns no more than rounding once at the highest rate, for every rate, and what is earned has the sign of the rate |
| `RateLimiters.EarnedRounds` | tools/request_simulation/rate_limiter.cc:45-46 | permits earned are the rate times the nanoseconds over 10^9, rounded toward zero |
| `RateLimiters.RateLimiter.RefillPermits` | tools/request_simulation/rate_limiter.cc:39-50 | adds exactly the permits the current rate, of any sign, earns in the elapsed time, restarts the time at a second reading of the clock, and keeps the ledger |
| `RateLimiters.RateLimiter.Acquire` | tools/request_simulation/rate_limiter.cc:23-37 | takes the permits at once or fails and takes none; fails only if it had to wait and the deadline passed, and always if it has to wait at a negative rate; never grants more than there are |
| `RateLimiters.RateLimiter.SetFillRate` | tools/request_simulation/rate_limiter.cc:52-55 | accepts any rate and keeps the ledger for the highest rate so far |
| `RateLimiters.GrantedStaysWithinRate` | tools/request_simulation/rate_limiter.cc:23-55 | in every run, at rates of either sign, the permits granted are at most the initial ones plus what the highest rate earns in the elapsed time, rounded down |

## Left out

- ShardKeys: requires that requests fit into 32 bits with their length prefix; the overflow of larger ones is not modelled.
- Pad: requires that the padded string fits into 32 bits; the network byte order of the length follows the data writer it uses, which is not part of the repository.
- LoadCacheWithData: records are applied one at a time in any order; the unsynchronised update of the largest time by concurrent readers is not modelled.
- ShardHoldsInAnyOrder: servers that see events in different orders are compared only where nothing is dropped and nothing conflicts; otherwise the order decides.
- ReadChunk: a failed read leaves the destination untouched; a source answers the same request the same way, so a read of zero bytes is repeated forever.
- ReadWindow: requires that the loop ends, that is, no read of zero bytes comes before its end; the specification `ReadLoop` describes the other case.
- Underflow: requires that the loop ends whenever it reads at all.
- Seekoff: positions are unbounded integers, and unknown directions are not modelled.
- Reposition: a get pointer past the end of a shortened buffer is a number here; what reading there does is not modelled.
- Acquire: requires a rate other than zero if it has to wait, since the code then divides by it; times and permits are unbounded integers, and the length of a sleep has no effect but the passing of time.
- GrantedStaysWithinRate: leaves out rates of zero for the same reason.
- ReadBytes: block reads follow the default of the standard library's stream buffers, which is not part of the repository.
- NoDeadlock: rests on the holder of a read result dropping it before it calls the cache again; a read nested under a live result, which can block behind a waiting clean-up, is not modelled.
- Watch: failed notifications, backoff and failed listings change nothing in the pipeline, so its steps omit them; polling frequency is not modelled.
- RunQuery: starts from the parsed tree; the grammar, the scanner and a parse that yields no root are not modelled.
- KeyValueCache: locking is the subject of `SetMapProtocol`; the class itself runs one call at a time, and concurrency on the key/value map, which a single lock serialises, is not modelled.
- PipelineLoading: real-time messages are part of streams in `ShardedDeployment` but not of the runs of the file pipeline.
- The string form of queries, metrics, logging, tracing and server start-up and shutdown have no effect on what is stored or answered.
- Cloud storage, message queues, parameter and instance clients are calls into libraries and appear by their contracts only.
- User-defined functions, JSON and the request adapters are calls into foreign code.
- Decoding of records and files starts from decoded records.
