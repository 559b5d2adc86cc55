# A verified model of the transfer queue's data engine

The transfer queue collects trajectories into groups by instance id, one shard per core, and hands
complete groups to a reader that consumes them. This project models that data engine and proves what
its pieces keep, alone and together:

- `BufferShard` (class `BufferShards.BufferShard`): the group map, its three counters, a uid filter and a
  store of spill files. Every method is an imperative method over the real fields, proved equal to a
  state function in `ShardModel`; the theorems about whole runs are about those functions.
- `DedupFilter` (class `DedupFilters.DedupFilter`): a bit array, a circular linked list of heap nodes
  relinked in place, and a map into that list. 64-bit wrap-around is explicit, and `std::hash`
  is an uninterpreted function.
- `DiskStorage` (class `DiskStorages.DiskStorage`): aligned, length-prefixed files under names made of a
  clock reading and a process-wide counter.
- `BufferManager` (class `BufferManagers.BufferManager`): routing, split batches, merged and truncated
  reads, the polling loop, aggregated status, over an arbitrary number of shard objects.
- the RPC codec (`RpcCodec`): nested lists of integers, booleans, strings and messages.

Three descriptions of one shard are connected. `PlainQueue` is a queue without any disk: a map from id to
group, where a spill only *seals* a group. `ShardModel` is the shard with its files, and
`ShardInvariant.View` reads the plain queue off it: each step of the model is the plain queue's step,
wherever the groups live. The class is proved to compute `ShardModel`. `ShardHistory`, `ShardAccounts` and
`CompletionHistory` then speak of whole runs, `Suspension` of runs in which spills and reads are
interrupted between their start and their finish, and `ManagerHistory` of whole runs over all shards.

Conventions. The traversal order of an unordered map is an arbitrary permutation of its keys
(`IsOrder`), returned as a ghost result where a caller's contract needs it. Clock readings are
naturals, in nanoseconds, that never decrease. The two water marks, configured as fractions of a memory
limit, are naturals already in bytes. A message class is a record of `serialize`, `parse` and
`byteSize` (`Protobuf.Codec`) of which only `Faithful` is assumed: parsing undoes serializing, and
messages of 2^31 bytes or more are refused. Where the design document, a reader's expectation and the
code differ, the code is modelled:

- only complete groups are spilled (src/server/buffer_shard.cc:348), not incomplete ones
  (docs/transferqueue-design.md:534);
- a duplicate uid is answered `false` (src/server/buffer_shard.cc:34-35), not success
  (docs/transferqueue-design.md:541);
- a write to a group already on disk is answered `true` and stores nothing
  (src/server/buffer_shard.cc:50-59), and a complete group still in memory goes on growing
  (src/server/buffer_shard.cc:70-77).

Properties that the code meets only under a condition are stated with that condition, both ways:
`LoadExactly`, `SpillOneExactly`, `WriteExactly` and `SpillSafeExactly` (a group above 100 MiB may live in
memory and be delivered, but is lost once it is spilled), `RoundTripExactly` (lengths below 2^32),
`NothingLostExactly` (what a merged read cuts off), `LostExactly` and `WriteSurvivesExactly` (acknowledged
writes that are not kept), `SamplesAreUnconsumed` (nothing deleted).

## Model

| member | source | states |
|---|---|---|
| `Lru.WindowExact` | src/server/dedup_filter.cc:36-55 | a uid is in the first max elements of the most-recent-first order of a history if and only if it was inserted before with fewer than max distinct other uids since |
| `Lru.TouchExtendsHistory` | src/server/dedup_filter.cc:36-55 | one insertion applied to the window of a history gives the window of the longer history, whatever was evicted on the way |
| `Lru.RecencyRank` | src/server/dedup_filter.cc:36-55 | the uids ahead of u in recency order are exactly the distinct uids inserted since u's last insertion |
| `RecencyList.List.Unlink` | src/server/dedup_filter.cc:36-55 | unlinking one node leaves the ring of the other nodes in order; only its two neighbours' links change |
| `RecencyList.List.MoveToFront` | src/server/dedup_filter.cc:38-42 | splicing a node to the front keeps every other node in order and allocates nothing |
| `RecencyList.List.PushFront` | src/server/dedup_filter.cc:44-46 | a new node in front of the unchanged old list |
| `RecencyList.List.PopBack` | src/server/dedup_filter.cc:151-164 | the list without its last element |
| `RecencyList.List.Clear` | src/server/dedup_filter.cc:57-61 | an empty, well-formed list |
| `DedupFilters.DedupFilter.constructor` | src/server/dedup_filter.cc:13-19 | a valid filter with empty exact set and at least one place, no bit set |
| `DedupFilters.DedupFilter.BloomHash` | src/server/dedup_filter.cc:110-123 | the probe is (h1 + i*h2) modulo 2^64 = 18446744073709551616, then modulo the number of bits, h1 being the string hash and h2 the FNV-1a hash of the bytes |
| `DedupFilters.FnvSnoc` | src/server/dedup_filter.cc:115-120 | the hash starts at 14695981039346656037; a further character, widened with its sign to 64 bits, is mixed in by exclusive or and the result multiplied by 1099511628211 modulo 2^64 |
| `DedupFilters.XorExactly` | src/server/dedup_filter.cc:118 | a number is the exclusive or of two others if and only if each of its binary digits is 1 exactly where theirs differ |
| `DedupFilters.DedupFilter.BloomAdd` | src/server/dedup_filter.cc:125-129 | a bit is set afterwards if and only if it was set or one of the uid's probes hits it |
| `DedupFilters.DedupFilter.BloomMaybeContains` | src/server/dedup_filter.cc:131-138 | true exactly when all probes of the uid are set |
| `DedupFilters.DedupFilter.BloomRebuild` | src/server/dedup_filter.cc:140-145 | afterwards bit j is set if and only if some uid of the exact set hashes to j |
| `DedupFilters.DedupFilter.NoFalseNegative` | src/server/dedup_filter.cc:131-138 | every probe of every uid in the exact set finds its bit set |
| `DedupFilters.DedupFilter.Contains` | src/server/dedup_filter.cc:27-34 | true exactly when the uid is in the exact set: the Bloom filter changes no answer |
| `DedupFilters.DedupFilter.EvictOldest` | src/server/dedup_filter.cc:151-164 | the least recent uid leaves list and map together, and the Bloom bits are exact again |
| `DedupFilters.DedupFilter.Insert` | src/server/dedup_filter.cc:36-55 | over the whole history of insertions: false exactly when the uid was inserted before with fewer than max distinct others since; bits, list and map agree afterwards |
| `DedupFilters.DedupFilter.Clear` | src/server/dedup_filter.cc:57-61 | exact set and history start over, all bits are clear |
| `DedupFilters.DedupFilter.Size` | src/server/dedup_filter.cc:63-65 | the size of the exact set, at most max |
| `RpcCodec.LittleEndianRoundTrip` | include/transfer_queue/server/rpc_handler.h:84-96 | reading back the little-endian bytes of a word gives the word |
| `RpcCodec.ReadWord` | include/transfer_queue/server/rpc_handler.h:91-120 | a reader adds up one, four or eight bytes, byte i times 256 to the i |
| `RpcCodec.LayoutExactly` | include/transfer_queue/server/rpc_handler.h:84-212 | bytes are the encoding of a value of any nested type if and only if they are laid out so: integers in range as 4 or 8 two's-complement bytes, least significant first; true as byte 1; strings, messages and lists behind their length in 4 such bytes, the items one after the other |
| `RpcCodec.ReadsExactly` | include/transfer_queue/server/rpc_handler.h:91-217 | decoding gives a value and a rest if and only if the input is bytes that read as the value, followed by the rest; any byte but 0 reads as true |
| `RpcCodec.RoundTrip` | include/transfer_queue/server/rpc_handler.h:84-217 | for every value of every nested type with lengths below 2^32, decoding its encoding followed by any suffix gives the value and leaves exactly the suffix |
| `RpcCodec.RoundTripExactly` | include/transfer_queue/server/rpc_handler.h:123-206 | an encodable value survives the round trip if and only if all its lengths fit 32 bits |
| `RpcCodec.RecoveredIsSized` | include/transfer_queue/server/rpc_handler.h:123-206 | whatever decoding recovers has all its lengths below 2^32 |
| `RpcCodec.PrefixFree` | include/transfer_queue/server/rpc_handler.h:209-217 | at one type, if one encoding is a prefix of another then the values are equal: the encoding is injective and prefix-free |
| `RpcCodec.WriteImpl` | include/transfer_queue/server/rpc_handler.h:123-212 | appends to the stream bytes laid out as the value requires, which are its encoding, and fails exactly when there is none: an ill-typed value or a message that cannot be serialized |
| `RpcCodec.ReadImpl` | include/transfer_queue/server/rpc_handler.h:128-217 | takes from the stream bytes that read as the value given and leaves the rest, and fails exactly when no prefix of the stream reads as any value |
| `RpcCodec.WriteThenRead` | include/transfer_queue/server/rpc_handler.h:209-217 | what one side writes to a stream the other side reads back, and nothing is left over |
| `DiskStorages.AlignedLeast` | src/server/disk_storage.cc:81-83 | the file size is the least multiple of 4096 that holds header and body |
| `DiskStorages.FrameParts` | src/server/disk_storage.cc:81-95 | header and body can be read back from the frame, whose size is a multiple of 4096 |
| `DiskStorages.FrameExactly` | src/server/disk_storage.cc:81-95 | an image is the frame of a body of less than 2^32 bytes if and only if it holds the length in four bytes, least significant first, the body, and fewer than 4096 zeros up to a multiple of 4096 |
| `DiskStorages.ParseExactly` | src/server/disk_storage.cc:148-170 | on any file, damaged or not: fewer than 4 bytes, a length above 104857600, a file too short for its length are the failures in this order, and a group is loaded if and only if none applies and the bytes after the header parse to it |
| `DiskStorages.LoadExactly` | src/server/disk_storage.cc:127-176 | load after spill gives the same group if and only if its encoding is at most 100 MiB; above that the load is refused |
| `DiskStorages.BatchRoundTrip` | src/server/disk_storage.cc:107-193 | with distinct unused names, loading a spilled batch gives the groups in order and every older file still loads as before |
| `DiskStorages.SpillThenLoad` | src/server/disk_storage.cc:107-193 | load_batch of spill_batch gives back the groups in order, and older files load as before; the names the store chooses need no assumption |
| `DiskStorages.DiskStorage.FillBuffer` | src/server/disk_storage.cc:81-95 | the buffer filled in place is the four length bytes, least significant first, the body and zero padding |
| `DiskStorages.DiskStorage.Spill` | src/server/disk_storage.cc:60-105 | one new file holding the group's frame under a positive name above every earlier name; on failure nothing is written |
| `DiskStorages.DiskStorage.SpillBatch` | src/server/disk_storage.cc:107-125 | one file per group in order under distinct, positive, unused names; no older file changes even when it fails half way; fails exactly when there is a group and the store is not initialized, or a group cannot be serialized |
| `DiskStorages.DiskStorage.LoadOne` | src/server/disk_storage.cc:127-176 | the group in the file, or the first failing check |
| `DiskStorages.DiskStorage.LoadBatch` | src/server/disk_storage.cc:178-193 | the groups in order, or the first failure; an error if the store is not initialized and there is something to load |
| `DiskStorages.DiskStorage.Remove` | src/server/disk_storage.cc:195-199 | exactly the named file goes; before initialization nothing happens |
| `DiskStorages.LoadAllFails` | src/server/disk_storage.cc:178-193 | the first failing file decides the result of a batch load |
| `ShardInvariant.ViewAgrees` | include/transfer_queue/server/buffer_shard.h:113-136 | for every entry, completeness and count as the entry reports them, cached or not, are those of the group it stands for |
| `ShardInvariant.BufferedIsHeld` | include/transfer_queue/server/buffer_shard.h:113-136 | in-memory sizes plus cached sizes add up to the number of trajectories held |
| `ShardInvariant.SpillOneStep` | src/server/buffer_shard.cc:367-391 | moving one complete group of at most 100 MiB to a file keeps the invariant and, to a client, only seals the group |
| `ShardInvariant.SpillOneExactly` | src/server/buffer_shard.cc:367-391 | a spill under an unused name keeps the invariant if and only if the name is positive and the encoding is at most 100 MiB; otherwise the entry stands for no group any more |
| `ShardInvariant.RemoveStep` | src/server/buffer_shard.cc:178-189 | deleting an id keeps the invariant and removes just that id, and its file, from the queue |
| `ShardInvariant.StoreStep` | src/server/buffer_shard.cc:47-77 | storing a trajectory, however large the group, keeps the invariant and is the plain queue's append, completing the group exactly at its size |
| `ShardInvariant.TimeoutsStep` | src/server/buffer_shard.cc:295-311 | the timeout check keeps the invariant and completes exactly the incomplete groups whose time is up |
| `ShardInvariant.ResetStep` | src/server/buffer_shard.cc:191-211 | a reset shard is a fresh shard: no group, no counter, no uid and no file is left |
| `ShardSteps.TwoPhase` | src/server/buffer_shard.cc:367-391 | writing all files and then switching all entries is the same as spilling the groups one at a time |
| `ShardSteps.SpillGroupsStep` | src/server/buffer_shard.cc:367-391 | spilling any complete in-memory groups that can be loaded again keeps the invariant and, to a client, only seals them |
| `ShardSteps.SpillGroupsExactly` | src/server/buffer_shard.cc:367-391 | a spill keeps the invariant if and only if all its groups can be loaded again |
| `ShardSteps.TrySpillStep` | src/server/buffer_shard.cc:330-392 | the spill check keeps the invariant, touches complete in-memory groups only, and only seals them |
| `ShardSteps.TrySpillBytes` | src/server/buffer_shard.cc:330-392 | disk usage and the sum of cached bytes rise, and the memory estimate falls, by the bytes of the selected groups, and exactly these stop being spillable, whether or not their files can be loaded |
| `ShardSteps.WriteStep` | src/server/buffer_shard.cc:31-86 | a write answers as the plain queue's write, leaves its state, and then seals some complete groups: nothing else |
| `ShardSteps.WriteExactly` | src/server/buffer_shard.cc:31-86 | a write keeps the invariant if and only if the groups it happens to spill can be loaded again; the size of groups that stay in memory does not matter |
| `ShardSteps.SpillSafeExactly` | src/server/buffer_shard.cc:330-361 | all that a spill check selects can be loaded again, along every traversal, if and only if no spill is due or every complete group in memory is at most 100 MiB: a condition on the state before the call |
| `ShardSteps.SafeWriteAllowed` | src/server/buffer_shard.cc:31-86 | a write that is safe on the state before it spills only groups that can be loaded again, whatever the traversal and the clock reading |
| `ShardSteps.SmallGroupsAreSafe` | src/server/buffer_shard.cc:88-97 | when no group exceeds 100 MiB, every batch may be written |
| `ShardSteps.KeysAfterWrite` | src/server/buffer_shard.cc:31-86 | a write adds no id but its own |
| `ShardSteps.ReadStep` | src/server/buffer_shard.cc:103-163 | a read delivers complete groups, each once, the same groups wherever they were stored, and takes exactly these out of the plain queue |
| `ShardSteps.ReadFromDisk` | src/server/buffer_shard.cc:134-147 | loading the noted files gives, in order, the groups held for the picked ids |
| `ShardBounds.UsageExactly` | src/server/buffer_shard.cc:313-327 | the estimate is the sum of the byte sizes of all groups in memory, complete or not, plus, exactly when deduplication is on, the bytes of the Bloom filter and 64 for every remembered uid |
| `ShardBounds.UsageIsUnsealed` | src/server/buffer_shard.cc:313-327 | read off the plain queue: the byte sizes of the groups held that no spill has sealed, and the filter |
| `ShardBounds.EntryUsage` | src/server/buffer_shard.cc:315-320 | an entry more raises the bytes in memory by the byte size of the group it holds, or by nothing |
| `ShardBounds.StoreUsage` | src/server/buffer_shard.cc:61-77 | a stored write raises the bytes in memory by the byte size of the new group minus that of the old one, and the estimate besides by 64 for each uid the filter remembers more |
| `ShardBounds.SpillDueExactly` | src/server/buffer_shard.cc:330-361 | a check selects something if and only if the estimate is above the threshold and some complete group is in memory |
| `ShardBounds.SelectReaches` | src/server/buffer_shard.cc:347-361 | selection reaches the target or takes every complete in-memory group, and without its last group it would miss the target |
| `ShardBounds.SpillBound` | src/server/buffer_shard.cc:330-361 | after a spill check memory is at most the threshold, or at most the 70% mark, or no complete group is left in memory; below the mark, where the unsigned target wraps around, all complete groups go |
| `ShardBounds.SpillMinimal` | src/server/buffer_shard.cc:338-361 | with a target that does not wrap, leaving out the last selected group would leave memory above the 70% mark |
| `ShardBounds.SpillConservesBytes` | src/server/buffer_shard.cc:367-390 | disk usage rises and the memory estimate falls by exactly the bytes the spill reports; disk usage is the sum of cached bytes and never negative |
| `ShardBounds.DiskUsageIsNat` | src/server/buffer_shard.cc:124-127 | disk usage never goes negative |
| `ShardBounds.ReadCount` | src/server/buffer_shard.cc:103-132 | a read removes and returns exactly min(max, ready) groups, all of them when max is not positive |
| `ShardHistory.RunInv` | src/server/buffer_shard.cc:31-392 | the representation invariant holds after every run whose spilled groups can be loaded again: each entry is in memory or on disk, on-disk entries have distinct files, these are all the files, each decodes to a complete group of the cached size and count |
| `ShardHistory.StepHeld` | src/server/buffer_shard.cc:31-211 | one operation changes what is held for an id exactly as its outcome says |
| `ShardHistory.HeldIsHistory` | src/server/buffer_shard.cc:31-211 | after any run the group held for an id is the sequence of writes stored for it since it was last removed, in write order, and the id is absent exactly when there are none |
| `ShardHistory.DeliveredIsHistory` | src/server/buffer_shard.cc:103-163 | every delivered group is complete and is exactly the writes stored for its id since it was last removed; no id is delivered twice at once |
| `ShardHistory.StoredIsGoneThenHeld` | src/server/buffer_shard.cc:31-211 | the writes stored for an id are, in order, what left it departure by departure followed by what is still held |
| `ShardHistory.Conservation` | src/server/buffer_shard.cc:31-211 | as multisets, every stored write is in exactly one of held, delivered, deleted, reset away |
| `ShardAccounts.CountsAddUp` | src/server/buffer_shard.cc:129-142 | total counts the stored writes since the last reset, consumed the delivered ones, and total = consumed + buffered + deleted |
| `ShardAccounts.SamplesAreUnconsumed` | src/server/buffer_shard.cc:237-268 | consumed never exceeds total, and total_samples is their difference if and only if nothing was deleted since the last reset |
| `ShardAccounts.LruIsHistory` | src/server/buffer_shard.cc:32-37 | with deduplication on for the writes since the last reset, the exact set of the filter is the window over the uids they offered, whatever else happened |
| `ShardAccounts.RefusedExactly` | src/server/buffer_shard.cc:32-37 | a write is refused exactly when deduplication is on and its uid was offered since the last reset with fewer than max distinct others after it |
| `ShardAccounts.StoredAtMostOnce` | src/server/buffer_shard.cc:31-37 | with at most max distinct uids since the last reset, no uid is stored twice, not for another instance and not after its group was read or deleted; nothing is assumed about sizes or files |
| `ShardAccounts.IncompleteBounds` | src/server/buffer_shard.cc:61-77 | an incomplete group always holds between 1 and group_size - 1 trajectories |
| `ShardAccounts.CompleteStays` | src/server/buffer_shard.cc:295-311 | a complete group stays complete until it is removed |
| `CompletionHistory.StepChanges` | src/server/buffer_shard.cc:61-311 | one operation and one id: a stored write adds one trajectory and completes the group if and only if it then has the group size fixed at its first write; a timeout check completes it if and only if the clock is at least timeoutSeconds * 1000000000 past that write; everything else leaves completeness, count and creation time alone or removes the group |
| `CompletionHistory.CompleteExactly` | src/server/buffer_shard.cc:61-77 | after any run, a held id is complete if and only if the writes stored for it since it was last removed are at least the group size configured when the first of them was stored, or a timeout check read a clock at least the configured timeout past that write |
| `CompletionHistory.TimeoutExactly` | src/server/buffer_shard.cc:295-311 | after any run, a check completes an incomplete id if and only if its clock reading minus the reading at the first write stored for it since it was last removed is at least timeoutSeconds * 1000000000 |
| `ShardAccounts.ReadIgnoresSpill` | src/server/buffer_shard.cc:103-163 | shards that differ only in what was spilled deliver the same groups up to order, and still differ only in that |
| `ShardAccounts.SealedIsHistory` | src/server/buffer_shard.cc:50-59 | an id takes no more writes exactly when its group has been spilled and not removed since |
| `ShardAccounts.LostExactly` | src/server/buffer_shard.cc:50-59 | over any run, a write is acknowledged and lost exactly when its uid is not refused and the group of its id has been spilled and not removed since |
| `BufferShards.BufferShard.constructor` | src/server/buffer_shard.cc:11-22 | a fresh, valid shard with an initialized store |
| `BufferShards.BufferShard.EstimateMemoryUsage` | src/server/buffer_shard.cc:313-327 | whatever the traversal order, the loop gives the byte sizes of all in-memory groups, complete or not, plus, with deduplication on, the bytes of the bit array and 64 for every remembered uid |
| `BufferShards.BufferShard.SelectGroups` | src/server/buffer_shard.cc:341-361 | the loop collects exactly the selected keys, copies of their groups, and their bytes |
| `BufferShards.BufferShard.CommitSpill` | src/server/buffer_shard.cc:374-390 | every spilled entry is switched over with its file, size and count, and disk usage follows |
| `BufferShards.BufferShard.TrySpillGroups` | src/server/buffer_shard.cc:330-392 | the whole new state of a spill check, for the traversal order and file names it met, and the bytes it reports |
| `BufferShards.BufferShard.Write` | src/server/buffer_shard.cc:31-86 | the whole new state and the answer of a write, with a creation time between the clock readings before and after it |
| `BufferShards.BufferShard.BatchWrite` | src/server/buffer_shard.cc:88-97 | the state and count that writing one by one gives |
| `BufferShards.BufferShard.ScanReady` | src/server/buffer_shard.cc:110-132 | the scan picks the complete groups up to the limit, splits them into moved groups and files, and keeps both accounts |
| `BufferShards.BufferShard.ReadReadyGroups` | src/server/buffer_shard.cc:103-163 | the whole new state and the delivered groups of a read |
| `BufferShards.BufferShard.HasReadyGroups` | src/server/buffer_shard.cc:165-172 | true exactly when some group is complete |
| `BufferShards.BufferShard.DeleteInstance` | src/server/buffer_shard.cc:178-189 | the whole new state of a delete; absent ids change nothing |
| `BufferShards.BufferShard.Reset` | src/server/buffer_shard.cc:191-211 | the shard is as freshly built, files included |
| `BufferShards.BufferShard.CheckGroupTimeouts` | src/server/buffer_shard.cc:295-311 | the whole new state, for a clock reading taken during the call |
| `BufferShards.BufferShard.UpdateConfig` | src/server/buffer_shard.cc:287-289 | only the configuration changes |
| `BufferShards.BufferShard.GetStatus` | src/server/buffer_shard.cc:213-235 | pending is the number of complete groups, pending plus incomplete the number of groups, and disk usage the sum of cached bytes |
| `BufferShards.BufferShard.GetMetaInfo` | src/server/buffer_shard.cc:237-281 | total_samples is what is buffered in memory and on disk, and the finished ids are the complete groups, each once |
| `BufferShards.ReadIsTaken` | src/server/buffer_shard.cc:134-160 | loading all, deleting all files and erasing all entries amounts to removing the picked ids one at a time |
| `Routing.ShardFor` | src/server/buffer_manager.cc:207-209 | the shard exists, and hash and shard number are congruent modulo the number of shards |
| `Routing.BatchIsSerial` | src/server/buffer_manager.cc:33-68 | splitting a batch by shard leaves every shard in the state, and accepts the number, that one-by-one writes in input order do |
| `Routing.AnyInterleaving` | src/server/buffer_manager.cc:49-57 | any two interleavings with the same order on every shard end in the same states with the same count |
| `Routing.WeaveParts` | src/server/buffer_manager.cc:43-47 | the partition is order preserving: shares handed to the shards interleave back to the batch |
| `Routing.SharesAreSerial` | src/server/buffer_manager.cc:41-68 | shares written shard by shard amount to the whole batch written in input order, with the same total |
| `Routing.RoutedStep` | src/server/buffer_manager.cc:33-39 | every operation on any shard, in any state, keeps every id on the shard it routes to |
| `Routing.GroupCountIsLiveIds` | src/server/buffer_manager.cc:153-175 | group counts added over the shards give the number of distinct live ids |
| `Routing.MergedReadIsExact` | src/server/buffer_manager.cc:74-95 | a merged read delivers exactly min(max, ready over all shards); at most (shards - 1) * max consumed groups are cut off and lost |
| `Routing.NothingLostExactly` | src/server/buffer_manager.cc:78-92 | nothing is lost if and only if the read is unlimited, or no more groups are ready than asked for, or at most one shard has any |
| `Routing.LossExample` | src/server/buffer_manager.cc:74-95 | from two fresh shards, group size 1 and one write routed to each: a read of one group empties both shards and delivers one group |
| `Routing.TakenOutBounds` | src/server/buffer_manager.cc:81-83 | what the shards give up in all is never more than is ready nor than shards * max, and enough to fill the limit |
| `ManagerHistory.RunOnShard` | src/server/buffer_manager.cc:33-200 | in any run of the manager every shard lives through its own run of shard operations |
| `ManagerHistory.RunIsRouted` | src/server/buffer_manager.cc:207-209 | in every state the manager can reach an id lives only on the shard it routes to |
| `ManagerHistory.MergedDelivery` | src/server/buffer_manager.cc:74-95 | what an id's shard gives up to a merged read is, as a multiset, what the caller gets of it plus what is cut off |
| `ManagerHistory.ManagerConservation` | src/server/buffer_manager.cc:33-151 | over any run of the manager, every write stored for an id is in exactly one of returned to callers, cut off, deleted, reset away, held by its own shard; no other shard holds the id |
| `ManagerHistory.TotalsAreHistory` | src/server/buffer_manager.cc:33-175 | after any run of the manager, the total over all shards is the number of writes stored since the last reset, and the consumed total the number of trajectories its reads took out since, cut off or not |
| `BufferManagers.BufferManager.constructor` | src/server/buffer_manager.cc:11-23 | fresh shards that share nothing but clock and counter |
| `BufferManagers.BufferManager.Write` | src/server/buffer_manager.cc:33-39 | only the shard the id routes to changes, by one write; every id stays on its shard |
| `BufferManagers.BufferManager.Partition` | src/server/buffer_manager.cc:43-47 | the loop builds, for every shard, exactly its part of the batch in input order, and no empty parts |
| `BufferManagers.BufferManager.SubmitInOrder` | src/server/buffer_manager.cc:49-57 | shards taking their shares in any order do so as if alone, and the counts collected add up to theirs |
| `BufferManagers.BufferManager.BatchWrite` | src/server/buffer_manager.cc:41-68 | all shard states and the total are those of writing the batch one by one in input order |
| `BufferManagers.BufferManager.ReadReadyGroups` | src/server/buffer_manager.cc:74-95 | each shard is read with the full limit, the results are concatenated and cut; exactly min(max, ready) groups are delivered |
| `BufferManagers.BufferManager.HasReadyGroups` | src/server/buffer_manager.cc:126-133 | true exactly when some shard has a complete group |
| `BufferManagers.BufferManager.DeleteInstance` | src/server/buffer_manager.cc:139-145 | only the shard the id routes to changes |
| `BufferManagers.BufferManager.Reset` | src/server/buffer_manager.cc:147-151 | every shard is as freshly built |
| `BufferManagers.BufferManager.UpdateConfig` | src/server/buffer_manager.cc:196-200 | every shard gets the configuration and nothing else changes |
| `BufferManagers.BufferManager.GetStatus` | src/server/buffer_manager.cc:153-175 | totals, consumed counts, memory and disk usage are each the sum of the shards' own; pending is the number of ready groups over all shards, and pending plus incomplete the number of distinct live ids |
| `BufferManagers.AggregateCounts` | src/server/buffer_manager.cc:153-175 | the summed pending count is the number of ready groups over all shards, and the two counts together the number of groups |
| `BufferManagers.AggregateSums` | src/server/buffer_manager.cc:153-175 | each of the four added fields is the sum, over the shards, of that field and no other |
| `BufferManagers.BufferManager.Poll` | src/server/buffer_manager.cc:107-119 | a round ends the loop only with some shard ready or the deadline passed, and otherwise moves the clock on by at least 10000000 ns |
| `BufferManagers.BufferManager.PollUntil` | src/server/buffer_manager.cc:97-121 | the loop ends with some shard ready or the clock at least timeoutMs * 1000000 ns past the start, after at most one poll per started 10 ms of the timeout plus one, each but the last taking at least 10 ms |
| `BufferManagers.BufferManager.ReadReadyGroupsBlocking` | src/server/buffer_manager.cc:97-124 | whatever others do meanwhile, also between the last poll and the read: at most one poll per started 10 ms of the timeout plus one, the last of which saw a ready shard or the deadline; then an exact read of the state found |
| `Suspension.Commute` | src/server/buffer_shard.cc:135-160 | finishing two suspended ids may happen in either order |
| `Suspension.PullBlock` | src/server/buffer_shard.cc:367-391 | a suspended operation may finish before or after any others |
| `Suspension.FinishIsParts` | src/server/buffer_shard.cc:135-160 | finishing in the source's phases does what finishing id by id does, and a read delivers what was fixed at its start |
| `Suspension.BeginThenFinish` | src/server/buffer_shard.cc:103-163 | starting a read and finishing it at once is the atomic read |
| `Suspension.SpillMoves` | src/server/buffer_shard.cc:330-392 | starting a spill and finishing it at once is the atomic spill |
| `Suspension.WriteIsMoves` | src/server/buffer_shard.cc:70-85 | a store, the start of the spill it triggers and its finish, undisturbed, are the whole write |
| `Suspension.ActCommutes` | src/server/buffer_shard.cc:31-311 | an operation on another id does the same, with the same answer, before and after a suspended one finishes |
| `Suspension.EndStep` | src/server/buffer_shard.cc:135-160 | a finish is invisible: the settled shard and all deliveries stay the same |
| `Suspension.BeginSpillStep` | src/server/buffer_shard.cc:346-367 | a suspended spill takes effect, on the settled shard, at its start |
| `Suspension.ScanSettled` | src/server/buffer_shard.cc:110-132 | the scan of a starting read, over a shard with suspended operations, picks what the scan of an atomic read of the settled shard picks along a full traversal |
| `Suspension.BeginReadStep` | src/server/buffer_shard.cc:110-135 | a suspended read takes effect at its start, and owes exactly what the atomic read delivers |
| `Suspension.SuspendedRunIsAtomic` | src/server/buffer_shard.cc:135-391 | every interleaving in which nothing touches the ids of a suspended operation settles in the state of an allowed atomic run; every write is answered and stored as in that run, deletes and resets come in the same order, and its reads deliver, or still owe, what that run's reads deliver |
| `Suspension.SuspendedConservation` | src/server/buffer_shard.cc:135-391 | every write the suspended run stored for an id is in exactly one of delivered by a finished read, owed by a started one, discarded by a delete or reset, held by the settled shard |
| `Suspension.WriteSurvivesExactly` | src/server/buffer_shard.cc:367-391 | a write during a suspended spill survives its finish if and only if it was to another id; to the same id it is acknowledged and counted, but the file holds the earlier copy |

## Left out

- Seastar mechanics (reactor, sharding service, cross-core calls, RPC sinks and sources): every operation is one method call, and suspension is modelled explicitly in `Suspension`.
- I/O failures inside a spill or a read: writes, loads and removals of existing files succeed. A read whose load fails has already moved its in-memory groups out, so conservation is not what that path keeps.
- Runs that spill a group above 100 MiB: its file can never be loaded (`SpillOneExactly`), so a later read of it is such a failing load. Groups of that size that stay in memory are covered.
- Exhaustion of clock and counter: readings stay below 2^63 ns and the counter has room for the names an operation may need (`Ready`, `Room`).
- Protobuf's wire format and `std::hash`: parameters, of which only `Faithful` and being a function are used.
- Files left in the directory by an earlier process: a store starts with an empty directory.
- Floating point: sizing of the Bloom filter (at least one bit and one probe is assumed), its estimated false positive rate, average reward and average group size, and the rounding of the two water marks.
- Widths of the counters reported as 32-bit and 64-bit integers: they are unbounded here.
- `get_disk_usage` of the store (always 0), HTTP handlers, JSON conversion, RPC dispatch, metrics, client, examples and `main`.
- DedupFilters.DedupFilter.constructor: the number of bits and of probes are parameters, because the source derives them in floating point.
- BufferShards.BufferShard.constructor: stands for construction followed by `start`; `stop` is the store's `Shutdown`.
- BufferShards.BufferShard.Write: asks that a spill that would be due after the write could only take groups of at most 100 MiB (`WriteSafe`); `WriteExactly` says that otherwise, and only then, an entry can be left without a group.
- BufferShards.BufferShard.BatchWrite: asks the same of every write of the batch when its turn comes (`BatchSafe`).
- BufferShards.BufferShard.UpdateConfig: the source keeps a reference to the manager's configuration, so that later changes show through; here the configuration is a value.
- BufferShards.BufferShard.GetMetaInfo: average reward and average group size are left out, being floating point.
- BufferManagers.BufferManager.UpdateConfig: takes the merged configuration; the field-by-field merge of a request into it is left out as one branch per field.
- BufferManagers.BufferManager.ReadReadyGroupsBlocking: the first clock reading is a parameter. What others do meanwhile is any number of whole manager operations and timeout checks; their writes are those after which every complete group in memory is at most 100 MiB.
- BufferManagers.BufferManager.SubmitInOrder: shares run one shard after the other, in any order; that finer interleavings make no difference is `Routing.AnyInterleaving`.
- ManagerHistory.ManagerConservation: a batch is the sequence of its writes, which `Routing.BatchIsSerial` justifies.
- Suspension.SuspendedRunIsAtomic: a suspended spill writes its files when it finishes, not one by one before; a write during a suspension is a store whose own spill is a separate move.
- RpcCodec.WriteImpl: after a failure the stream may hold part of the value, as after the exception in the source.
- RpcCodec.ReadImpl: a stream that ends too early and a message that does not parse are one failure result where the source throws; what is left of the stream is then unspecified.
