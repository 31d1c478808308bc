# Wormhole filters and the LevelDB store around them

This project models the wormhole filter (a fingerprint table whose entries remember their distance from their
home bucket, in its persistent-memory and in its LevelDB form) and the parts of the LevelDB store it is built
into whose correctness is a matter of several operations together, and proves what those parts are for.

| file | part |
|---|---|
| `wrappers.dfy`, `bags.dfy`, `bits.dfy`, `bytes.dfy`, `coding.dfy` | options, multiset sums, bits, fixed-width words, checksums, varints |
| `wormhole_tags.dfy` | 16-bit tags and the packed comparison on 64-bit bucket words |
| `wormhole_table.dfy` | the table as cells: insert with relocation chains, lookup, delete, as multiset operations |
| `wormhole_memory.dfy` | persistent memory: stores, flushes, and what a power loss may leave |
| `wormhole_filter.dfy` | the filter object over its bucket array |
| `wormhole_runs.dfy` | all sequences of inserts, deletes, inserts cut off between stores, and power losses |
| `wormhole_crowding.dfy` | tables filled by inserts alone: exactly which lists of items fit |
| `wormhole_layout.dfy`, `wormhole_policy.dfy` | the power-of-two variant as a LevelDB filter policy, down to its bytes |
| `lsm_entries.dfy`, `lsm_files.dfy`, `lsm_version.dfy` | entries, table files, versions, reading a version |
| `lsm_inputs.dfy`, `lsm_compaction.dfy`, `lsm_steps.dfy` | choosing compaction inputs, dropping entries, installing results |
| `lsm_db.dfy`, `lsm_background.dfy` | the database as a state machine against the history of everything written, and the background work as its steps |
| `lsm_overlap.dfy`, `lsm_cover.dfy`, `lsm_gap.dfy` | compactions that run over writes, flushes and snapshots; why automatic ones may, and a manual one that may not |
| `listing.dfy`, `merging_iter.dfy`, `db_iter.dfy`, `lsm_iterator.dfy` | the direction-switching cursors, one on top of the other, and iterating over the database |
| `manifest.dfy`, `version_edit.dfy`, `manifest_runs.dfy` | version edits: builder, replay, encoding, and recovering a run from its MANIFEST |
| `log.dfy`, `log_format.dfy` | the write-ahead log, read from any bytes and read back after a crash at any byte |
| `recovery.dfy`, `recovery_files.dfy` | what a crash leaves of the files and logs of a run, and opening the database again |
| `group_commit.dfy`, `write_batch.dfy` | the writer queue and its batches |
| `updates.dfy` | what committed updates answer, from the writer queue to the recovered database |
| `skiplist.dfy` | the memtable's list, one writer and interleaved searches |
| `handle_table.dfy`, `lru_cache.dfy` | one shard of the block cache |
| `block.dfy`, `block_iter.dfy`, `comparator.dfy`, `bloom.dfy`, `filter_block.dfy` | blocks and the cursor over one, separators, Bloom filters, filter blocks |
| `table_format.dfy`, `table.dfy`, `table_builder.dfy`, `table_reader.dfy`, `table_cuts.dfy` | table files: format, contents, the builder and the reader on bytes, where blocks end |
| `policies.dfy` | lookups in the files of tables built with either filter policy |

How the pieces meet: the filter methods are proved against functions on cells, and the multiset statements are
proved of those functions. A read of a set of entries (`Entries.ReadIs`) is one notion throughout: `Versions.Get`,
`Database.Get`, the compaction's drop rule, `DbIter` and the history of writes are all stated with it.
`Iterators.Iterate` puts the children of `NewInternalIterator` under a `MergingIter.Iter` and that under a
`DbIter.Iter`, and shows the history. `Background.BackgroundCompaction` and `CompactMemTable` run the picking of
inputs, the merge, the drop loop and the installation of the edit, and are steps of `Database`. `Updates` says in terms of
maps, without numbers or markers, what reads answer: `GetAnswers` over every run, `RecoveredReads` after a crash.
`ManifestRuns.RecoverFromManifest` sends the edits of a run through `VersionEdits`, `Log` and `Manifest` and gets its
version back; `RecoveryFiles.Reopen` adds the logs, whose records are the groups of `GroupCommit` encoded by
`WriteBatches`. `Policies.FileGet` opens the bytes `TableBuilders.Build` wrote and seeks in them with `BlockIters.Iter`;
which filter a key gets is a function of the entries and options alone (`Tables.GroupOf`).

Conventions. Objects whose fields the source updates in place are classes with loops; protocols with several
threads are state machines whose steps are the individual stores, loads or critical sections. Keys that enter the
code only through a comparator (user keys of the store, memtable keys) are reals, into which every countable total
order embeds; where bytes matter (formats, separators, filters) keys are byte sequences. Hashes and the checksum
step are arbitrary functions. Clocks, randomness (skip-list heights) and heuristics (when a file is full, which
compaction runs next) are parameters, so the statements hold for every choice.

Where the code and its documentation disagree, the code is modelled. The policy interface says that a filter must
match every key it was made from, and the wormhole policy ignores the result of `InsertItem`. `PromiseBroken` gives 65
keys of which the filter denies one. `PolicyPromiseIff` says which key lists are safe: those in which no run of k ring
buckets is the home of more than 4 (k + 15) keys, whatever their order and fingerprints. For keys with different
(bucket, fingerprint) pairs it is exact. When such pairs repeat, the condition is still sufficient, and it is not
necessary (`RepeatsFound`): a pair is found exactly when one of its inserts succeeded (`FillMember`), and the first pair
to crowd a run is missed unless it is given again (`FirstCrowderMissed`). At most 51 keys are always safe
(`SmallBlocksAlwaysMatch`).
The final store of an insert and the store of a delete are not flushed, so a power loss can take a key whose insert
returned true (`FinalStoreNotDurable`); `SurvivesIff` and, by the stores made, `SurvivesByStores` say exactly which keys
outlast every power loss. Deleting a key that was never inserted can remove a live key's entry (`DeleteLosesKey`);
`DeleteHarmlessIff` says exactly when it does not.
A memtable switch closes the old log without syncing it, so a crash can lose writes and keep later, synced ones
(`LostBeforeSynced`); `NoHoleIff` says exactly when it cannot, and `GapReadsIff` exactly when reads do not tell. No
synced write is lost in any case (`SyncedKept`).
A flush can run inside a compaction, and picks its level from the version as it then is. It can put its file between two
inputs of a manual compaction, on the level of the outputs; an output that spans it hides it from searches
(`FlushedIntoGap`). `InstallKeepsIff` says exactly when that is not so, and `RunAlone` that it never happens to automatic
compactions, whose inputs leave no gap.
Beyond 1,717,986,918 keys the byte offsets of the wormhole policy's buckets wrap; `PlacesFit` and `InsertAtPlaces` say
what the code does then, and `PolicyPromiseIff` holds of the buckets that are told apart.

## Model

| member | source | states |
|---|---|---|
| `Tags.HasValue16Iff` | src/pm_wf/pmwormholefilter.hpp:51-52 | for every word and every tag, the packed test is nonzero exactly when one of the four 16-bit lanes equals the tag |
| `Tags.SetLaneLane` | src/pm_wf/pmwormholefilter.hpp:132-142 | writing one lane of a bucket word changes that lane and no other |
| `Tags.DecodeMakeTag` | src/pm_wf/pmwormholefilter.hpp:197 | a fingerprint or-ed with a distance below 16 decodes to exactly that fingerprint and distance |
| `Tags.DecodeRaised` | src/pm_wf/pmwormholefilter.hpp:175-179 | re-tagging a displaced entry keeps its fingerprint and replaces its distance |
| `Tags.DecodeInjective` | src/pm_wf/pmwormholefilter.hpp:216 | two tags with the same fingerprint and distance are the same 16 bits |
| `WormholeTable.WrapIsMod` | src/pm_wf/pmwormholefilter.hpp:49 | the wrap-around of bucket indices, also of negative differences, is the modulus |
| `WormholeTable.RingWalk` | src/pm_wf/pmwormholefilter.hpp:211-216 | walking d buckets back from b reaches the home bucket exactly when walking d forward from home reaches b |
| `WormholeTable.LookupIff` | src/pm_wf/pmwormholefilter.hpp:205-223 | probing 16 buckets finds an entry exactly when the represented multiset contains it |
| `WormholeTable.DeleteFinds` | src/pm_wf/pmwormholefilter.hpp:225-245 | delete finds a slot exactly when lookup answers true |
| `WormholeTable.DeleteItems` | src/pm_wf/pmwormholefilter.hpp:225-245 | delete removes exactly one copy from the multiset and keeps the table well formed |
| `WormholeTable.MoveUpKeepsBase` | src/pm_wf/pmwormholefilter.hpp:174-190 | one relocation keeps every represented entry and its home, leaves exactly one duplicate, and keeps distances below 16 |
| `WormholeTable.DigItems` | src/pm_wf/pmwormholefilter.hpp:166-197 | every intermediate state of the relocation chain represents the old multiset plus one duplicate; success ends in old plus the new entry |
| `WormholeTable.CandidateFirst` | src/pm_wf/pmwormholefilter.hpp:168-186 | no slot scanned before the candidate could have been moved |
| `WormholeTable.InsertItems` | src/pm_wf/pmwormholefilter.hpp:152-203 | insert refines multiset insertion: success adds exactly one copy, failure leaves the multiset or one duplicate of a present entry, and every intermediate store state contains the old multiset |
| `WormholeTable.FirstEmptyFound` | src/pm_wf/pmwormholefilter.hpp:158-164 | with fewer entries than slots the scan from any home finds an empty slot |
| `WormholeTable.SmallTableInsert` | src/pm_wf/pmwormholefilter.hpp:152-203 | with at most 16 buckets an insert into a table that is not full succeeds |
| `WormholeFilter.Filter.constructor` | src/pm_wf/pmwormholefilter.hpp:88-107 | a new filter, for any number of buckets, represents the empty multiset and is durable; with no buckets no operation is defined on it |
| `WormholeFilter.Filter.ReadTag` | src/pm_wf/pmwormholefilter.hpp:132-136 | the lane read decodes to the abstract cell of that slot, wrap-around included |
| `WormholeFilter.Filter.WriteTag` | src/pm_wf/pmwormholefilter.hpp:138-142 | the store changes exactly the addressed cell, and a power loss may leave the bucket as it was before or after |
| `WormholeFilter.Filter.PMWriteTag` | src/pm_wf/pmwormholefilter.hpp:144-150 | the store changes exactly the addressed cell, and its bucket is durable afterwards |
| `WormholeFilter.Filter.FindCandidate` | src/pm_wf/pmwormholefilter.hpp:168-186 | the nested candidate scan finds the first movable slot of the 15 buckets before the hole, or reports none |
| `WormholeFilter.Filter.Relocate` | src/pm_wf/pmwormholefilter.hpp:179-184 | the displaced entry is copied to the hole with its distance raised and its home kept, and flushed |
| `WormholeFilter.Filter.FillFrom` | src/pm_wf/pmwormholefilter.hpp:166-199 | the relocation loop performs exactly the state sequence of the relocation chain, and ends |
| `WormholeFilter.Filter.InsertItem` | src/pm_wf/pmwormholefilter.hpp:152-203 | the nested loops perform exactly the store sequence of the abstract insert, with relocations flushed and the final store not |
| `WormholeFilter.Filter.LookupItem` | src/pm_wf/pmwormholefilter.hpp:205-223 | the packed probe loop answers the abstract lookup |
| `WormholeFilter.Filter.DeleteItem` | src/pm_wf/pmwormholefilter.hpp:225-245 | the slot cleared is the first matching one in probe order, by a store that is not flushed |
| `WormholeFilter.PackedProbe` | src/pm_wf/pmwormholefilter.hpp:214-219 | the packed comparison of one bucket word is nonzero exactly when one of its four slots matches the entry at that distance |
| `WormholeFilter.Filter.InsertKey` | src/pm_wf/pmwormholefilter.hpp:152-203 | per key: success adds one copy of (home, fingerprint), failure adds at most one duplicate, and no intermediate store state loses an entry |
| `WormholeFilter.Filter.LookupKey` | src/pm_wf/pmwormholefilter.hpp:205-223 | true exactly when the key's (home, fingerprint) is in the multiset |
| `WormholeFilter.Filter.DeleteKey` | src/pm_wf/pmwormholefilter.hpp:225-245 | removes exactly one copy, and reports whether there was one |
| `WormholeMemory.PowerLossKeeps` | src/pm_wf/pmwormholefilter.hpp:138-150 | a power loss takes away no more than the entries in slots that some possible value of their word does not show |
| `WormholeMemory.InsertOnTheWay` | src/pm_wf/pmwormholefilter.hpp:152-203 | during an insert nothing becomes loose but the new entry, at its final store; every earlier store leaves all older durable entries durable |
| `WormholeMemory.OutlastsIff` | src/pm_wf/pmwormholefilter.hpp:138-150 | an entry is there after every power loss if and only if some bucket holds it in every value the bucket may be left with |
| `WormholeMemory.InsertWritesMake` | src/pm_wf/pmwormholefilter.hpp:152-203 | stopping an insert after any number of its stores leaves the memory those stores and flushes make |
| `WormholeMemory.MayLeave` | src/pm_wf/pmwormholefilter.hpp:138-150 | a power loss may leave in a bucket exactly the values it had since its last flush |
| `WormholeMemory.FlushedIsFirm` | src/pm_wf/pmwormholefilter.hpp:138-150 | a slot whose word was flushed at or after the last store to it is the same after every power loss |
| `WormholeRuns.StepKeepsInv` | src/pm_wf/pmwormholefilter.hpp:144-245 | every insert, delete of a live key, insert cut off after any number of its stores, and power loss keeps: live keys represented or lost to a power loss, and only entries stored since the last one loose |
| `WormholeRuns.RunInv` | src/pm_wf/pmwormholefilter.hpp:144-245 | the same over every sequence of them |
| `WormholeRuns.NoFalseNegatives` | src/pm_wf/pmwormholefilter.hpp:205-223 | after any such sequence every live key is found whose entry the last power loss did not take |
| `WormholeRuns.NothingLostWithoutPowerLoss` | src/pm_wf/pmwormholefilter.hpp:152-203 | failed inserts, and inserts cut off by a stop of the program alone, lose nothing |
| `WormholeRuns.PowerLossTakes` | src/pm_wf/pmwormholefilter.hpp:138-203 | a power loss takes only entries stored since the one before whose bucket was not flushed since |
| `WormholeRuns.SurvivesIff` | src/pm_wf/pmwormholefilter.hpp:138-223 | a key is found after every power loss if and only if some bucket holds its entry in every value the bucket may be left with |
| `WormholeRuns.SurvivesByStores` | src/pm_wf/pmwormholefilter.hpp:138-223 | in terms of the stores of the run: exactly when some bucket held its entry after its last flush and after every store since |
| `WormholeRuns.FlushedKeySurvives` | src/pm_wf/pmwormholefilter.hpp:138-223 | a key is found after the next power loss if the word of a slot holding its entry was flushed at or after the last store to that slot |
| `WormholeRuns.FinalStoreNotDurable` | src/pm_wf/pmwormholefilter.hpp:197 | for every key and table size: its insert into a new filter returns true, and a power loss can leave a filter without it |
| `WormholeRuns.ExactWithoutFailures` | src/pm_wf/pmwormholefilter.hpp:205-245 | without failed or cut-off inserts and power losses the table holds exactly the live keys' entries, so lookup is true exactly for keys sharing a live key's entry |
| `WormholeRuns.DeleteAnyKey` | src/pm_wf/pmwormholefilter.hpp:225-245 | deleting an arbitrary key keeps all live keys found if and only if no live key shares its entry or two copies are stored |
| `WormholeRuns.DeleteHarmlessIff` | src/pm_wf/pmwormholefilter.hpp:225-245 | without failures that is so if and only if the live keys sharing its entry are not exactly one |
| `WormholeRuns.DeleteLosesKey` | src/pm_wf/pmwormholefilter.hpp:225-245 | for every table size: key 0 is inserted, a key that never was is deleted, and key 0 is reported absent |
| `WormholePolicy.UpperPower2Is` | leveldb/util/wormhole.cc:49-60 | the shift-and-or trick computes the least power of two at or above x, for all x up to 2^63 |
| `WormholePolicy.BucketCountFits` | leveldb/util/wormhole.cc:135-142 | a power-of-two bucket count with strictly more slots than keys, for every n |
| `WormholePolicy.PlacesFit` | leveldb/util/wormhole.cc:61-79 | byte offsets wrap at 32 bits: up to 1,717,986,918 keys every bucket has bytes of its own, beyond that 2^29 places serve two buckets each, still with strictly more slots than keys |
| `WormholePolicy.InsertAtPlaces` | leveldb/util/wormhole.cc:81-126 | with wrapping offsets, InsertItem over all bucket numbers makes the stores of an insert into a table of that many places |
| `WormholePolicy.SmallBucketCount` | leveldb/util/wormhole.cc:135-142 | at most 16 buckets exactly when n is at most 51 |
| `WormholePolicy.MaskIsMod` | leveldb/util/wormhole.cc:24-40 | masking with a power of two minus one is the modulus |
| `WormholePolicy.Buckets` | leveldb/util/wormhole.cc:135-142 | the bucket count CreateFilter computes |
| `WormholePolicy.EveryInsertFindsSlot` | leveldb/util/wormhole.cc:79-142 | counting duplicates left by failed inserts, every insert of CreateFilter finds an empty slot |
| `WormholeCrowding.FillMember` | leveldb/util/wormhole.cc:79-151 | the finished table holds an entry exactly when some insert of it succeeded |
| `WormholeCrowding.FillSize` | leveldb/util/wormhole.cc:79-151 | the finished table never holds more entries than keys |
| `WormholeCrowding.InsertCovers` | leveldb/util/wormhole.cc:79-125 | in a table filled by inserts alone, with room, an insert succeeds and again leaves no empty slot between any entry and its home, or it fails and some run of k ring buckets around the home already holds 4 (k + 15) entries |
| `WormholeCrowding.FitsIff` | leveldb/util/wormhole.cc:79-151 | every insert of a list succeeds if and only if no run of k ring buckets, k + 15 less than all, is the home of more than 4 (k + 15) of its items: order and fingerprints do not matter |
| `WormholeCrowding.FirstFailureIff` | leveldb/util/wormhole.cc:79-151 | the first insert to fail is exactly the first whose item crowds such a run |
| `WormholeCrowding.PromiseIff` | leveldb/include/leveldb/filter_policy.h:46-51 | every item of a list that crowds no run is found; for different items that is also necessary |
| `WormholeCrowding.FirstCrowderMissed` | leveldb/include/leveldb/filter_policy.h:46-51 | the first item to crowd a run is missed unless it is given again |
| `WormholeCrowding.RepeatsFound` | leveldb/include/leveldb/filter_policy.h:46-51 | any number of copies of one item is found, crowded or not |
| `WormholePolicy.MatchIff` | leveldb/util/wormhole.cc:162-187 | asking the filter's bytes is looking the key's entry up in the table they were made from |
| `WormholePolicy.PolicyPromiseIff` | leveldb/include/leveldb/filter_policy.h:46-51 | every key of a list matches the filter bytes made from it if the keys' home buckets are not crowded; for keys with different entries, if and only if |
| `WormholePolicy.SmallBlocksAlwaysMatch` | leveldb/util/wormhole.cc:79-187 | with at most 51 keys every key matches, whatever the hash |
| `WormholePolicy.PromiseBroken` | leveldb/util/wormhole.cc:79-187 | the filter bytes made from 65 given keys deny one of them |
| `WormholeLayout.ReadBack` | leveldb/util/wormhole.cc:144-174 | a written block reads back: the bucket count, and the tag of every slot |
| `WormholePolicy.CreateFilter` | leveldb/util/wormhole.cc:134-160 | for every int number of keys the bytes appended are the tags of the table of inserting all keys in order, two bytes each, zeros for buckets without bytes of their own, and the bucket count |
| `WormholePolicy.KeyMayMatch` | leveldb/util/wormhole.cc:162-187 | for any bytes, the answer of the first probe that finds the key's tag or leaves the filter, false if none does; in a filter that holds the buckets it says it has, true exactly when a probed lane holds the tag at that distance; fewer than two bytes match nothing |
| `Files.FindFile` | leveldb/db/version_set.cc:87-105 | the binary search returns the first file whose largest key is at or after the target |
| `Files.SomeFileOverlapsRange` | leveldb/db/version_set.cc:121-156 | true exactly when some file overlaps the user-key range, on sorted disjoint and on overlapping levels |
| `Files.TableGetNewest` | leveldb/db/version_set.cc:262-275 | a seek to (key, snapshot) whose hit has the user key is the newest visible entry of the file, and a miss means there is none |
| `Inputs.GetOverlappingInputs` | leveldb/db/version_set.cc:498-538 | the restarting scan ends; on level 0 its answer is the least overlap-closed set of files around the range, elsewhere exactly the overlapping files in order |
| `Inputs.FindLargestKey` | leveldb/db/version_set.cc:1308-1322 | the largest key among the files' largest keys, and false exactly for no files |
| `Inputs.FindSmallestBoundaryFile` | leveldb/db/version_set.cc:1326-1344 | the smallest file continuing the user key at its largest key, or none |
| `Inputs.AddBoundaryInputs` | leveldb/db/version_set.cc:1360-1383 | ends, keeps the given inputs as a prefix, and adds behind them the first file continuing the user key they end with, again and again until there is none; nothing when there was none |
| `Inputs.LeftOutIsNewer` | leveldb/db/version_set.cc:1346-1383 | in a level of disjoint files, an entry left behind is newer than every input entry of its user key |
| `Inputs.GetRange` | leveldb/db/version_set.cc:1187-1206 | the range covers all files and both ends are attained |
| `Inputs.PickFile` | leveldb/db/version_set.cc:1266-1280 | the first file after the compaction pointer, or the first of all when no file is |
| `Inputs.PickCompaction` | leveldb/db/version_set.cc:1284-1302 | the starting inputs contain the picked file and, on level 0, exactly what the overlap rule drags along; below it they are that file alone; no file twice |
| `Inputs.CompactRange` | leveldb/db/version_set.cc:1448-1479 | starting inputs for a manual compaction, empty exactly when nothing overlaps; on level 0 the least overlap-closed set, below it the shortest prefix reaching the size limit, which stays contiguous |
| `Inputs.SetupOtherInputs` | leveldb/db/version_set.cc:1385-1446 | the exact inputs for every byte limit: the start with its boundary files; from the next level all files overlapping their range, with theirs; and both replaced by the files in the range of all of these and what those take below, exactly when that gives more files of the level, fewer bytes than the limit and as many files below; inputs leave no boundary file and no gap, in the order an iterator over them needs |
| `Inputs.SetUpUnique` | leveldb/db/version_set.cc:1385-1446 | above level 0 the files, the start and the byte limit leave exactly one choice of inputs |
| `Versions.LevelGet` | leveldb/db/version_set.cc:301-321 | the newest visible entry of a sorted level |
| `Versions.Level0Get` | leveldb/db/version_set.cc:281-300 | the newest visible entry of level 0, searching files newest first |
| `Versions.FirstHitIsNewest` | leveldb/db/version_set.cc:281-322 | in a valid version the first level with a hit has the newest visible entry of the whole version |
| `Versions.Get` | leveldb/db/version_set.cc:324-400 | answers with the newest visible entry over all files of a valid version |
| `Versions.ValidDistinct` | leveldb/db/version_set.cc:281-400 | in a valid version no two entries share user key, sequence number and type |
| `Compactions.Compaction.IsBaseLevelForKey` | leveldb/db/version_set.cc:1517-1536 | asked in key order, the advancing level pointers answer as a full scan of all levels from level + 2 on |
| `Compactions.ShouldDrop` | leveldb/db/db_impl.cc:945-984 | the loop's running variables decide exactly: with one entry per key and number, an entry goes exactly when no reader at or after the oldest snapshot finds it first, or it is a deletion all of them see and no file from two levels below on has a range that takes in its key |
| `Compactions.DoCompactionWork` | leveldb/db/db_impl.cc:892-1051 | the output files hold the kept entries in order, and of the input, with one entry per key and number, exactly those that a reader at or after the oldest snapshot finds first and that are not deletions nothing can need; they are cut exactly where an entry filled its file or a later one may not join it |
| `Compactions.KeptSorted` | leveldb/db/db_impl.cc:945-1010 | the kept entries stay sorted |
| `Compactions.DropKeepsReads` | leveldb/db/db_impl.cc:945-984 | dropping preserves every read at every snapshot at or above the oldest one, next to any rest with nothing below for dropped deletions |
| `Compactions.KeptWanted` | leveldb/db/db_impl.cc:945-984 | of any merged input, what is written is neither more nor less than what some reader needs |
| `Steps.PickLevelForMemTableOutput` | leveldb/db/version_set.cc:470-495 | the deepest level, at most 2, reachable by steps on which nothing overlaps and the bytes two levels below stay within the limit |
| `Steps.PushRule` | leveldb/db/version_set.cc:474-492 | a step down is allowed exactly when no file of the next level shares a user key range with the new one and the files overlapping it two levels down stay within the limit |
| `Steps.FlushKeepsValid` | leveldb/db/db_impl.cc:549-580 | adding a flushed file on its chosen level keeps the level order, disjointness, file-number order and unique numbers |
| `Steps.StaysNewer` | leveldb/db/version_set.cc:1346-1446 | entries left behind on levels up to level + 1 are newer than every input entry of their user key |
| `Steps.InputsOnOneSide` | leveldb/db/version_set.cc:1385-1446 | every next-level file left behind lies entirely before or after all inputs, so outputs are disjoint from it |
| `Steps.ReplaceKeepsValid` | leveldb/db/db_impl.cc:874-890 | installing a compaction's outputs for its inputs keeps the version valid |
| `Steps.ReplaceKeepsValidIff` | leveldb/db/db_impl.cc:874-890 | where all that stays above is newer, installing outputs keeps the version valid if and only if no file that stays on their level is in the range of one |
| `Database.FlushKeepsInv` | leveldb/db/db_impl.cc:505-580 | a flush keeps the database invariant, reads included |
| `Database.CompactKeepsInv` | leveldb/db/db_impl.cc:874-1051 | a compaction keeps the invariant: valid version, memory newer than files, and all reads at all live snapshots unchanged against the history of writes |
| `Database.CompactWrites` | leveldb/db/db_impl.cc:892-984 | a compaction writes exactly the entries of its inputs that a read at the first snapshot left, at the last number where there is none, or later finds first, without the deletions all of these see and no file further down can need |
| `Database.MoveKeepsInv` | leveldb/db/db_impl.cc:725-747 | a trivial move keeps the invariant |
| `Database.StepKeepsInv` | leveldb/db/db_impl.cc:549-1190 | every step (write, memtable switch, flush, compaction, trivial move, taking and releasing snapshots) keeps the invariant |
| `Database.RunInv` | leveldb/db/db_impl.cc:549-1190 | the invariant holds in every state of every run from an empty database |
| `Database.Get` | leveldb/db/db_impl.cc:1115-1160 | a read at any live snapshot answers as the history of all writes does |
| `Database.SnapshotStable` | leveldb/db/db_impl.cc:1181-1190 | later writes never change what a snapshot reads |
| `Database.RunSorted` | leveldb/db/version_set.cc:684-709 | on every run every level lists its files by smallest key |
| `Background.MergeAll` | leveldb/db/db_impl.cc:905-1010 | walking the merging iterator from the first entry to the end lists all entries of its children in order |
| `Background.MakeInputIterator` | leveldb/db/version_set.cc:1219-1250 | level-0 inputs each by itself and the others concatenated are sorted children without a common internal key, and hold exactly the inputs' entries |
| `Background.BackgroundCompaction` | leveldb/db/db_impl.cc:702-781 | picking, merging, dropping and installing is a step of the database on that level with exactly the inputs set up from the files the automatic or manual choice starts from; a trivial move exactly for an automatic choice with one input, none below and no more than the limit two levels down, a compaction otherwise, and nothing exactly when there is no file to start from |
| `Background.IsTrivialMove` | leveldb/db/version_set.cc:1499-1507 | one input, none below, and the files overlapping it two levels down within the limit |
| `Overlapped.TurnKeepsIff` | leveldb/db/db_impl.cc:892-1051 | with a compaction running over other steps: every write, memtable switch, flush to any level, snapshot, number taken and end keeps the invariant, but for installing outputs over a file that stays on their level in the range of one |
| `Overlapped.InstallKeepsIff` | leveldb/db/db_impl.cc:874-943 | whatever happened since its inputs were chosen, installing keeps validity and all reads at all live snapshots if and only if no output spans a file of its level that stays |
| `InputCover.AutomaticNoGap` | leveldb/db/version_set.cc:1252-1446 | the inputs of an automatic compaction, grown or not, leave no user key between their ends that is in none of them |
| `InputCover.RunAlone` | leveldb/db/db_impl.cc:892-1051 | while compactions are chosen automatically, nothing between their beginning and their end does harm: the invariant holds in every state of every run |
| `GapExample.FlushedIntoGap` | leveldb/db/db_impl.cc:922-934 | a run on which a memtable is flushed into a gap between the inputs of a manual compaction: the output spans it, and the search for its key ends in the output, which does not have it |
| `GapExample.AsPicked` | leveldb/db/version_set.cc:470-495 | every flush of that run goes to the level the code picks |
| `GapExample.AsAsked` | leveldb/db/version_set.cc:1448-1479 | and the inputs are those of a manual compaction of level 1 over all keys |
| `Background.CompactMemTable` | leveldb/db/db_impl.cc:505-580 | flushing the frozen memtable is a step of the database, to the deepest level the rule allows; an empty one is only dropped |
| `DbIter.CursorDeterministic` | leveldb/db/db_iter.cc:141-308 | the plain cursor over live keys leaves no choice of position or value |
| `DbIter.RunDeterministic` | leveldb/db/db_iter.cc:141-308 | nor does any sequence of its operations |
| `DbIter.YieldsLive` | leveldb/db/db_iter.cc:177-207 | a position whose entry is the newest visible one of its key and a value is what a read finds |
| `DbIter.LiveYields` | leveldb/db/db_iter.cc:177-207 | everything a read finds sits at exactly such a position |
| `DbIter.Iter.FindNextUserEntry` | leveldb/db/db_iter.cc:177-207 | from any scan state, stops at the least live key in range, or at none when there is none |
| `DbIter.Iter.FindPrevUserEntry` | leveldb/db/db_iter.cc:236-276 | stops at the greatest live key in range with its newest visible value, and leaves the inner iterator just before its entries |
| `DbIter.Iter.Next` | leveldb/db/db_iter.cc:141-175 | the least live key above the current one, also after a change of direction |
| `DbIter.Iter.Prev` | leveldb/db/db_iter.cc:209-234 | the greatest live key below the current one, also after a change of direction |
| `DbIter.Iter.Seek` | leveldb/db/db_iter.cc:278-290 | the least live key at or above the target |
| `DbIter.Iter.SeekToFirst` | leveldb/db/db_iter.cc:292-301 | the least live key |
| `DbIter.Iter.SeekToLast` | leveldb/db/db_iter.cc:303-308 | the greatest live key |
| `DbIter.Drive` | leveldb/db/db_iter.cc:141-308 | any mix of the five operations, over the merging iterator, shows exactly what the plain cursor shows |
| `DbIter.RunSame` | leveldb/db/db_iter.cc:141-308 | entries that answer every read at the snapshot alike show the same cursor |
| `MergingIter.Iter.FindSmallest` | leveldb/table/merger.cc:148-161 | the child chosen holds the least entry from the children's common cut on |
| `MergingIter.Iter.FindLargest` | leveldb/table/merger.cc:163-176 | the child chosen holds the greatest entry below the cut |
| `MergingIter.Iter.Next` | leveldb/table/merger.cc:55-79 | the first entry of the merge after the current one, with all children repositioned when the direction flips |
| `MergingIter.Iter.Prev` | leveldb/table/merger.cc:81-108 | the last entry of the merge before the current one, likewise |
| `MergingIter.Iter.Seek` | leveldb/table/merger.cc:47-53 | the first entry of the merge at or after the target |
| `MergingIter.Iter.SeekToFirst` | leveldb/table/merger.cc:31-37 | the first entry of the merge |
| `MergingIter.Iter.SeekToLast` | leveldb/table/merger.cc:39-45 | the last entry of the merge |
| `MergingIter.NextIsIndex` | leveldb/table/merger.cc:55-79 | on any sorted listing of the merged entries that is the next index |
| `MergingIter.PrevIsIndex` | leveldb/table/merger.cc:81-108 | and the previous index |
| `MergingIter.SeekIsIndex` | leveldb/table/merger.cc:47-53 | and the index of the first entry at or after the target |
| `MergingIter.EndsAreIndices` | leveldb/table/merger.cc:31-45 | and the first and last index |
| `MergingIter.WalkNext` | leveldb/table/merger.cc:55-79 | Next moves the iterator one position on in the sorted listing of all children's entries |
| `MergingIter.WalkPrev` | leveldb/table/merger.cc:81-108 | Prev moves it one position back |
| `MergingIter.WalkTo` | leveldb/table/merger.cc:47-53 | Seek moves it to the first position at or after the target |
| `Iterators.NewInternalIterator` | leveldb/db/db_impl.cc:1077-1102 | memtable, flushing memtable, level-0 files and concatenated levels are sorted children without a common internal key, and hold exactly the store |
| `Iterators.FlattenDisjoint` | leveldb/db/version_set.cc:222-245 | concatenating the files of a disjoint level gives a sorted sequence |
| `Iterators.Iterate` | leveldb/db/db_impl.cc:1077-1172 | on every state of every run and at every live snapshot: the children merged, under the user's cursor, show for any mix of operations exactly what the plain cursor over the history of writes shows |
| `Bytes.ExtendConcat` | leveldb/util/crc32c.h:13-20 | extending a checksum is the checksum of the concatenation, for any checksum step |
| `Bytes.MaskRoundTrip` | leveldb/util/crc32c.h:29-38 | unmasking undoes masking on all 32-bit values |
| `Bytes.UnmaskBack` | leveldb/util/crc32c.h:29-38 | and masking undoes unmasking |
| `Bytes.MaskRotates` | leveldb/util/crc32c.h:29-32 | masking divides by 2^15 modulo 2^32 - 1, a rotation, and adds the constant |
| `Bytes.Fixed32RoundTrip` | leveldb/util/coding.h:54-89 | fixed 32-bit decoding undoes encoding |
| `Bytes.Fixed32Is` | leveldb/util/coding.h:54-89 | a 32-bit value is stored as the four bytes that make it up, the lowest first |
| `Log.Writer.EmitPhysicalRecord` | leveldb/db/log_writer.cc:82-108 | appends checksum, length, type and payload of one fragment |
| `Log.Writer.AddRecord` | leveldb/db/log_writer.cc:34-80 | for every record and every offset: ends, also with exactly 7 bytes left in the block, and appends exactly the record's fragments with padding |
| `Log.StartIs` | leveldb/db/log_writer.cc:44-56 | a header can follow where it is asked for or, with fewer than 7 bytes left in the block, with the next block |
| `LogFormat.FrameLaid` | leveldb/db/log_writer.cc:34-108 | the bytes appended are zeros where no header fits, then fragments that stand one behind the other, typed by their place, all but the last filling their block |
| `LogFormat.LogLaid` | leveldb/db/log_writer.cc:34-108 | so every record of a log lies between the ends of the logs without and with it |
| `Log.Reader.FillBuffer` | leveldb/db/log_reader.cc:189-216 | reads on until a header is at hand, skipping block trailers, or reports the end of the file |
| `Log.Reader.ReadPhysicalRecord` | leveldb/db/log_reader.cc:189-271 | on any file contents: the fragment, dropped bytes or end of file at the current offset, and the report made; with the checksum checked, a fragment returned stands in the file, its stored checksum that of its type and payload |
| `Log.Reader.ReadRecord` | leveldb/db/log_reader.cc:56-174 | on any file contents: reassembles the next record and reports exactly the sizes dropped on the way; with the checksum checked, a record returned is the payloads of fragments that stand in the file one behind the other, one full or a first, middle ones and a last; stored types 5 and 6 are taken for end of file and bad record |
| `Log.PhysStands` | leveldb/db/log_reader.cc:218-268 | of whatever bytes, with the checksum checked: what is taken for a fragment stands there, in one block, with the masked checksum of its type and payload |
| `Log.StandsRead` | leveldb/db/log_reader.cc:218-268 | what stands where a header can follow is read, checked or not, but for an empty one of type 0 |
| `Log.WrongChecksum` | leveldb/db/log_reader.cc:245-259 | a fragment that lies in its block and does not carry its checksum is never returned: the rest of its block is reported, with a record begun before, and reading goes on behind it |
| `Log.RecordStands` | leveldb/db/log_reader.cc:56-174 | of whatever bytes, with the checksum checked: every record returned is the concatenation of fragments that stand in the file one behind the other, typed full, or first, middle and last |
| `Log.RecordRead` | leveldb/db/log_reader.cc:56-174 | of whatever bytes: a record that stands where a header can follow is returned, and nothing reported but one left unfinished before |
| `Log.AllStand` | leveldb/db/log_reader.cc:56-174 | all records of a file stand in it in the order returned |
| `Log.Accounted` | leveldb/db/log_reader.cc:76-185 | of whatever bytes: what the reader comes across on its way to a record goes into that record or into the sizes reported, byte by byte |
| `Log.ReadFragment` | leveldb/db/log_reader.cc:218-268 | a fragment wholly in the file is read back |
| `Log.CutFragment` | leveldb/db/log_reader.cc:218-243 | a fragment cut anywhere by the end of the file reads as end of file, without a report |
| `Log.ReadFrame` | leveldb/db/log_reader.cc:56-174 | what is left of a record is read back whole, or as end of file if it is cut |
| `Log.WholeIff` | leveldb/db/log_writer.cc:34-80 | the count of whole records within a cut is right for every cut |
| `Log.CrashSafe` | leveldb/db/log_reader.cc:56-271 | for every list of records and every byte-prefix of the written file the reader returns exactly the records wholly inside it and reports no corruption |
| `Log.ReadToEnd` | leveldb/db/log_reader.cc:56-174 | calling ReadRecord until it fails returns and reports what the file says from the current offset on |
| `Log.WriteCutRead` | leveldb/db/log_writer.cc:34-80 | writer, cut at any byte, reader: exactly the wholly written records come back and nothing is reported |
| `GroupCommit.BuildBatchGroup` | leveldb/db/db_impl.cc:1275-1321 | the group is the longest prefix in which every writer may join, and its batch the concatenation of their updates |
| `GroupCommit.GroupRules` | leveldb/db/db_impl.cc:1283-1304 | no sync writer in a group led by a non-sync one, and the size limit unless the first writer alone exceeds it |
| `GroupCommit.WhoJoins` | leveldb/db/db_impl.cc:1275-1321 | the group is the first writer and all behind it up to the first that is a sync writer behind one that is not, or brings a batch beyond 128 KB more than a first one of at most 128 KB, beyond 1 MB otherwise |
| `GroupCommit.StepKeepsInv` | leveldb/db/db_impl.cc:1200-1271 | every step of leader and arriving writers keeps order, contiguous sequence ranges, memtable contents and durability |
| `GroupCommit.RunInv` | leveldb/db/db_impl.cc:1200-1271 | in every state of every run |
| `GroupCommit.OnceInOrder` | leveldb/db/db_impl.cc:1200-1271 | writers finish exactly once, in arrival order, and between groups the memtable holds exactly the successful writers' updates in that order |
| `GroupCommit.SyncedWritesDurable` | leveldb/db/db_impl.cc:1230-1236 | a successful sync write is in a log record that was synced |
| `GroupCommit.AllOrNone` | leveldb/db/db_impl.cc:1217-1252 | a snapshot taken at any moment contains each writer's sequence range wholly or not at all |
| `GroupCommit.SnapshotSees` | leveldb/db/db_impl.cc:1217-1252 | a reader at a snapshot sees, at any later time, exactly the updates of the writers finished when it was taken |
| `GroupCommit.AppliedNumbered` | leveldb/db/db_impl.cc:1213-1218 | while writes succeed, the applied entries carry consecutive sequence numbers: the history the database model appends to |
| `GroupCommit.FatesApplied` | leveldb/db/write_batch.cc:115-137 | numbering the appended batch in one go gives each writer the entries of its own range |
| `Updates.StampReads` | leveldb/db/write_batch.cc:115-137 | numbered updates answer a read of any key at any number as the map does that the puts set and the deletions remove, up to that number |
| `Updates.AppliedReads` | leveldb/db/write_batch.cc:115-137 | so do the entries of finished writers: the updates of those that succeeded, in order of arrival, cut at the read's number |
| `Updates.SnapshotReads` | leveldb/db/db_impl.cc:1200-1271 | at any later time, whatever is being inserted, a snapshot of a run of group commit answers as the map of the updates of the writers that had finished successfully |
| `Updates.JoinedReads` | leveldb/db/write_batch.cc:115-137 | and so do the records of a log, numbered one above the other |
| `Updates.HistoryIs` | leveldb/db/db_impl.cc:1213-1236 | the history of a run is the updates of its groups, numbered from 1 on |
| `Updates.GetAnswers` | leveldb/db/db_impl.cc:1115-1160 | after any run of groups, flushes, compactions and moves, a read at any number the snapshots allow is answered with what the updates up to that number make of its key |
| `Updates.RecoveredReads` | leveldb/db/db_impl.cc:385-470 | what reads as the history up to its p-th write answers as the map of the first p updates |
| `WriteBatches.Iterate` | leveldb/db/write_batch.cc:42-80 | hands over the updates until the input ends, with every error case and the final count comparison |
| `WriteBatches.ContentsIff` | leveldb/db/write_batch.cc:42-80 | of whatever bytes: a batch is handed over as given updates exactly when it has a header whose count is theirs and they follow it with nothing behind them |
| `WriteBatches.RoundTrip` | leveldb/db/write_batch.cc:42-109 | iterating an encoded batch hands over exactly its updates in order, and its sequence number reads back |
| `WriteBatches.WriteBatch.Put` | leveldb/db/write_batch.cc:98-103 | appends one put and raises the count |
| `WriteBatches.WriteBatch.Delete` | leveldb/db/write_batch.cc:105-109 | appends one deletion and raises the count |
| `WriteBatches.WriteBatch.Append` | leveldb/db/write_batch.cc:144-148 | appends the updates of the other batch, or of itself, and adds the counts |
| `WriteBatches.WriteBatch.SetSequence` | leveldb/db/write_batch.cc:94-96 | changes the sequence number and nothing else |
| `SkipLists.SearchStep` | leveldb/db/skiplist.h:258-280 | one pointer load leads to a node still before the key, or proves this is the last such node of the level; on level 0 the pointer is the answer |
| `SkipLists.SkipList.FindGreaterOrEqual` | leveldb/db/skiplist.h:258-280 | the first node at or after the key, and on every level the last node before it |
| `SkipLists.SkipList.FindLessThan` | leveldb/db/skiplist.h:282-300 | the last node before the key, or the head |
| `SkipLists.SkipList.FindLast` | leveldb/db/skiplist.h:302-320 | the last node, or the head of an empty list |
| `SkipLists.SkipList.LinkLevel` | leveldb/db/skiplist.h:359-365 | each level is sorted and a sublist of the level below after each of the two stores |
| `SkipLists.SkipList.Insert` | leveldb/db/skiplist.h:334-366 | the new node is on exactly the levels below its height and nothing else changes |
| `SkipLists.SkipList.Contains` | leveldb/db/skiplist.h:368-376 | true exactly when a node has the key |
| `SkipLists.SetNextOk` | leveldb/db/skiplist.h:359-362 | preparing a pointer of a node not yet on the level disturbs nothing |
| `SkipLists.PublishOk` | leveldb/db/skiplist.h:359-365 | the publishing store keeps every level sorted and nested |
| `SkipListRuns.StepKeepsInv` | leveldb/db/skiplist.h:258-366 | every store of the writer and every load of any number of searches keeps the list and all searches in progress sound |
| `SkipListRuns.RunInv` | leveldb/db/skiplist.h:258-366 | in every state of every interleaving |
| `SkipListRuns.SearchExact` | leveldb/db/skiplist.h:258-320 | a search answers for the list as it is at its last load: the first node at or after its key, the last node before it, or the last node |
| `SkipListRuns.WriterNotBlocked` | leveldb/db/skiplist.h:334-366 | a begun insertion can always take its next step |
| `SkipListRuns.ReaderNotBlocked` | leveldb/db/skiplist.h:258-280 | a search can always take its next step |
| `HandleTables.HandleTable.Lookup` | leveldb/util/cache.cc:75-77 | the id the map holds for the key |
| `HandleTables.HandleTable.Insert` | leveldb/util/cache.cc:79-93 | the map with the key added or replaced, and the id replaced; the table grows when it must, so that there are never more entries than chains |
| `HandleTables.HandleTable.Remove` | leveldb/util/cache.cc:95-103 | the map without the key, and the id removed |
| `HandleTables.HandleTable.Resize` | leveldb/util/cache.cc:123-148 | rehashing changes nothing in the map and leaves at least as many chains as entries, four or less than twice as many |
| `LruCaches.RefKeeps` | leveldb/util/cache.cc:218-224 | taking a handle keeps the invariant: counts, one list per cached entry, charge, table |
| `LruCaches.UnrefKeeps` | leveldb/util/cache.cc:226-238 | dropping a reference keeps it, freeing at zero and moving to the LRU list at one |
| `LruCaches.EraseKeeps` | leveldb/util/cache.cc:308-317 | finishing an erase keeps it |
| `LruCaches.AdmitKeeps` | leveldb/util/cache.cc:272-297 | a new entry keeps it, apart from the entry it displaces in the table |
| `LruCaches.LRUCache.Lookup` | leveldb/util/cache.cc:253-260 | the cached id, with one more client handle; the entry leaves the LRU list, if it was there, for the end of the in-use list, and nothing else changes |
| `LruCaches.LRUCache.Release` | leveldb/util/cache.cc:262-265 | one client handle less; the entry moves to the new end of the LRU list exactly when it was the last client of a cached entry, and is freed exactly when it was the last reference to one out of the cache; the list stays ordered by last release |
| `LruCaches.ReleasedOrder` | leveldb/util/cache.cc:226-251 | releasing an entry that is not on the LRU list, and putting it at the new end, keeps the list ordered by last release |
| `LruCaches.LRUCache.EvictOldest` | leveldb/util/cache.cc:296-303 | the entry at the old end of the list leaves list, table and charge, and is freed |
| `LruCaches.LRUCache.Insert` | leveldb/util/cache.cc:267-304 | the new entry is cached under its key unless the capacity is zero; entries are evicted from the LRU list, each released before all that stay, just enough for the usage to fit or all there are, and nothing else is freed but the key's old entry when no client holds it |
| `LruCaches.LRUCache.Erase` | leveldb/util/cache.cc:319-322 | the key leaves the table, its entry the list and the charge; it is freed exactly when no client holds it |
| `LruCaches.LRUCache.Prune` | leveldb/util/cache.cc:324-334 | every entry no client holds leaves the cache and is freed, and no other |
| `Coding.EncodeVarint64` | leveldb/util/coding.cc:55-64 | the loop writes the base-128 form |
| `Coding.VarintShortest` | leveldb/util/coding.cc:55-64 | what is written is a varint of the value, and no varint of that value is shorter |
| `Coding.EncodersAgree` | leveldb/util/coding.cc:21-47 | the unrolled 32-bit encoder writes the same bytes as the loop, for every value |
| `Coding.ReadLoop` | leveldb/util/coding.cc:86-131 | the shifting loop reads the value, cut to the width of the result, or fails |
| `Coding.ReadVarintIff` | leveldb/util/coding.cc:86-131 | reading takes off the front any varint of at most so many bytes, and nothing else |
| `Coding.SliceIff` | leveldb/util/coding.cc:145-154 | a slice is read exactly where a length in at most five bytes, and as many bytes, stand |
| `Coding.GetPutVarint32` | leveldb/util/coding.cc:49-114 | reading back any 32-bit value, with anything behind it |
| `Coding.GetPutVarint64` | leveldb/util/coding.cc:66-143 | reading back any 64-bit value, with anything behind it |
| `Coding.GetPutSlice` | leveldb/util/coding.cc:72-154 | reading back any length-prefixed string, with anything behind it |
| `VersionEdits.EncodeTo` | leveldb/db/version_edit.cc:42-85 | writes the fields of the edit in order |
| `VersionEdits.DecodeFrom` | leveldb/db/version_edit.cc:106-204 | reads fields until the input ends, with every error case |
| `VersionEdits.DecodeIff` | leveldb/db/version_edit.cc:106-204 | of whatever bytes: decoding succeeds exactly on fields one behind the other, levels below 7, keys not empty, and applies them in turn |
| `VersionEdits.FieldsBack` | leveldb/db/version_edit.cc:106-204 | decoding any sequence of well-formed fields applies them in turn |
| `VersionEdits.RoundTrip` | leveldb/db/version_edit.cc:42-204 | decoding an encoded edit gives the edit back, in whatever order its deleted files are listed |
| `Manifest.Builder.Apply` | leveldb/db/version_set.cc:644-677 | the builder's per-level state after an edit: deletions recorded, additions kept sorted and un-deleted |
| `Manifest.Builder.SaveTo` | leveldb/db/version_set.cc:680-730 | every level of the saved version is sorted and holds exactly the base and added files not deleted |
| `Manifest.SaveLevel` | leveldb/db/version_set.cc:684-709 | the merge of base and added files is sorted and complete |
| `Manifest.InstallEdit` | leveldb/db/version_set.cc:777-800 | LogAndApply's new version is the edit installed on every level |
| `Manifest.ReplayMatchesInstalls` | leveldb/db/version_set.cc:861-992 | one builder fed the whole history holds what installing the edits one by one gave, if no number names two files of a level |
| `Manifest.Recover` | leveldb/db/version_set.cc:861-992 | the recovered version holds, level by level, the files of the last installed version, sorted |
| `Manifest.CompactionInstalls` | leveldb/db/db_impl.cc:874-890 | installing a compaction's edit is the replacement of its inputs by its outputs |
| `Manifest.FlushInstalls` | leveldb/db/db_impl.cc:505-546 | installing a flush's edit adds exactly its file |
| `ManifestRuns.StepKeepsNamed` | leveldb/db/version_set.cc:777-800 | on no run does a file number ever name two files |
| `ManifestRuns.RunInstalls` | leveldb/db/version_set.cc:777-800 | the edits a run has logged, installed one by one from nothing, give its current version |
| `ManifestRuns.RecoverRun` | leveldb/db/version_set.cc:861-992 | replaying the edits of any run rebuilds exactly its current version |
| `ManifestRuns.RecoverFromManifest` | leveldb/db/version_set.cc:861-992 | encoding and logging the edits, cutting the MANIFEST at any byte, reading, decoding and replaying gives the version of a state of the run that had logged exactly the edits whose records are whole, and the current one if nothing was cut off |
| `Blocks.SharedPrefix` | leveldb/table/block_builder.cc:77-82 | the loop finds the longest common prefix |
| `Blocks.Builder.Add` | leveldb/table/block_builder.cc:71-105 | the buffer, restart array and counter after one more entry, for every restart interval |
| `Blocks.Builder.Finish` | leveldb/table/block_builder.cc:61-69 | entries, restart array and its length, each cut to 32 bits |
| `Blocks.Builder.CurrentSizeEstimate` | leveldb/table/block_builder.cc:55-59 | the estimate is the exact size of the block Finish would return |
| `Blocks.LengthsBack` | leveldb/table/block.cc:54-76 | the fast and the general path both read back three encoded lengths |
| `Blocks.BuiltLayout` | leveldb/table/block_builder.cc:71-105 | a built block holds its entries at ascending offsets, decodable from the key before, with whole keys at the restart points |
| `Blocks.BuiltShares` | leveldb/table/block_builder.cc:71-105 | the shared length stored with an entry is that of the longest common prefix with the key before, and 0 at every interval-th place |
| `Blocks.FirstsAre` | leveldb/table/block_builder.cc:77-86 | the restart points are at the entries whose number the interval divides |
| `Blocks.Open` | leveldb/table/block.cc:26-41 | the restart array's place and length, or none when the size cannot hold it |
| `Blocks.OpenBuilt` | leveldb/table/block.cc:26-41 | opening a built block finds its restart array |
| `BlockIters.Iter.ParseNextKey` | leveldb/table/block.cc:249-276 | decodes exactly the next entry and its restart region, and reports the end; a built block is never corrupt |
| `BlockIters.Iter.Next` | leveldb/table/block.cc:137-140 | the next entry |
| `BlockIters.Iter.Prev` | leveldb/table/block.cc:142-161 | the entry before, so that Prev undoes Next; from the first entry, none |
| `BlockIters.Iter.Seek` | leveldb/table/block.cc:163-226 | from any position the first entry at or after the target, including the shortcuts that reuse the position |
| `BlockIters.Iter.SearchRestarts` | leveldb/table/block.cc:188-208 | the binary search ends at the last restart point with a key before the target |
| `BlockIters.Iter.SeekToLast` | leveldb/table/block.cc:233-238 | the last entry |
| `BlockIters.BuildAndRead` | leveldb/table/block.cc:137-276 | for every restart interval, a built block reads back as the entries added |
| `BlockIters.SeekIn` | leveldb/table/block.cc:163-226 | opening the bytes of a built block and seeking gives the first entry at or after the target, if there is one |
| `Comparators.FindShortestSeparator` | leveldb/util/comparator.cc:31-52 | the separator function, by the loop of the code |
| `Comparators.SeparatorBetween` | leveldb/util/comparator.cc:31-52 | the result is in [start, limit) and not longer |
| `Comparators.SeparatorShortens` | leveldb/util/comparator.cc:31-52 | where some byte lies between those at which the strings part, the result is cut behind that place, its last byte one more, and nothing of its length and prefix comes between; otherwise it is the start |
| `Comparators.FindShortSuccessor` | leveldb/util/comparator.cc:54-66 | the successor function, by the loop of the code |
| `Comparators.SuccessorAfter` | leveldb/util/comparator.cc:54-66 | the short successor is not before the key |
| `Comparators.SuccessorShortens` | leveldb/util/comparator.cc:54-66 | cut behind the first byte that is not 0xff, that byte one more, and nothing of its length comes between; the key itself if all are 0xff |
| `Comparators.ISeparatorBetween` | leveldb/db/dbformat.cc:65-82 | the internal separator is in [start, limit), and unless it is the start itself its user key is before the limit's |
| `Comparators.ISeparatorShortens` | leveldb/db/dbformat.cc:65-82 | the user keys' separator with the largest number wherever it is shorter than the last user key, otherwise the last key |
| `Comparators.ISuccessorAfter` | leveldb/db/dbformat.cc:84-97 | the internal successor is not before the key |
| `Comparators.ISuccessorShortens` | leveldb/db/dbformat.cc:84-97 | likewise for the successor |
| `Comparators.KeyLessIs` | leveldb/db/dbformat.cc:47-63 | comparing encoded internal keys is comparing user keys up, then packed numbers down |
| `Comparators.KeyLessOrder` | leveldb/db/dbformat.cc:47-63 | on all byte strings that is a strict total order |
| `Bloom.CreateFilter` | leveldb/util/bloom.cc:30-57 | the filter function, by the loop of the code: exactly the probed bits of the keys are set, and the number of probes is stored behind them |
| `Bloom.FilterNumbers` | leveldb/util/bloom.cc:21-40 | the bits are the least whole bytes that give every key its bits, at least 64; the probes 0.69 of the bits per key rounded down, from 1 to 30 |
| `Bloom.ProbeIs` | leveldb/util/bloom.cc:46-53 | the j-th probe adds the difference j times to the hash, modulo 2^32 |
| `Bloom.DeltaRotates` | leveldb/util/bloom.cc:48 | the difference is the hash divided by 2^17 modulo 2^32 - 1, a rotation |
| `Bloom.KeyMayMatch` | leveldb/util/bloom.cc:59-83 | true exactly when all stored probes of the key are set or the encoding is reserved; short filters match nothing |
| `Bloom.NoFalseNegatives` | leveldb/util/bloom.cc:30-83 | every key the filter was made for matches, for every hash, key list and number of bits per key |
| `FilterBlocks.Builder.StartBlock` | leveldb/table/filter_block.cc:21-27 | filters are made until the next one is that of the block's offset: the first for the waiting keys, the others empty |
| `FilterBlocks.Builder.GenerateFilter` | leveldb/table/filter_block.cc:51-75 | the waiting keys, cut out of the flattened bytes, get the next filter |
| `FilterBlocks.Builder.Finish` | leveldb/table/filter_block.cc:35-49 | filters, offset array, its offset and the base parameter, offsets cut to 32 bits |
| `FilterBlocks.ReaderAsks` | leveldb/table/filter_block.cc:77-104 | the reader asks the filter made for the block's offset |
| `FilterBlocks.NeverMissed` | leveldb/table/filter_block.cc:21-104 | where the policy has no false negatives for a group of keys, no key is missed in a block it was added for |
| `FilterBlocks.GroupIsSlice` | leveldb/table/filter_block.cc:21-75 | the keys of each filter are a contiguous slice of all keys added |
| `TableFormat.HandleBack` | leveldb/table/format.cc:16-30 | a decoded block handle is the one encoded |
| `TableFormat.FramedReads` | leveldb/table/format.cc:69-144 | a block with its trailer reads back by its type, whether the checksum is verified or not |
| `TableFormat.BlockReads` | leveldb/table/table_builder.cc:141-209 | what WriteBlock stores, compressed or not, ReadBlock gives back |
| `TableFormat.StoredSaves` | leveldb/table/table_builder.cc:152-190 | what is stored never takes more than the block; the compressed form wherever that saves more than an eighth, the block itself wherever it saves less |
| `TableFormat.ReadBlockIff` | leveldb/table/format.cc:69-144 | of whatever bytes: a block is read exactly when it and its trailer lie in the file, the checksum, if verified, is that of contents and type, masked, and the type is known |
| `TableFormat.FooterBack` | leveldb/table/format.cc:32-67 | a decoded footer has the two handles encoded |
| `TableFormat.FooterMagic` | leveldb/table/format.cc:40-67 | of whatever bytes: nothing passes for a footer without the eight magic bytes, and with them exactly two readable handles do |
| `Tables.AddKeeps` | leveldb/table/table_builder.cc:94-123 | adding a key keeps: blocks and separators in order, every key in the filter of its block's offset |
| `Tables.FlushKeeps` | leveldb/table/table_builder.cc:125-139 | so does writing the block |
| `Tables.RunHolds` | leveldb/table/table_builder.cc:94-139 | after any ascending entries the blocks hold exactly them, and the filters' groups and the waiting keys are exactly their user keys, in order |
| `Tables.TableOfEntries` | leveldb/table/table_builder.cc:94-268 | the finished table is well formed, holds exactly the entries, and its filters are for exactly their user keys, in order |
| `Tables.BlockOfEntry` | leveldb/table/table_builder.cc:94-139 | the block an entry goes to starts where the file ended when the entry was added |
| `Tables.KeyInGroup` | leveldb/table/filter_block.cc:21-75 | an entry's user key is among the keys of the filter its lookups ask |
| `Tables.GroupMember` | leveldb/table/filter_block.cc:21-75 | every key a filter is made for is the user key of an entry whose lookups ask that filter |
| `Tables.SepsAscend` | leveldb/table/table_builder.cc:103-111 | the index keys ascend |
| `TableCuts.TableCut` | leveldb/table/table_builder.cc:94-139 | every block but the last was full with its last entry and none before; blocks stand one behind the other, and index keys are the shortened separators and, at the end, the successor |
| `TableCuts.BlockSizes` | leveldb/table/table_builder.cc:118-122 | every block but the last takes at least the block size, and no block did before its last entry |
| `TableBuilders.TableBuilder.WriteRawBlock` | leveldb/table/table_builder.cc:192-209 | contents, type and checksum are appended, and the handle is theirs |
| `TableBuilders.TableBuilder.Add` | leveldb/table/table_builder.cc:94-123 | the pending index entry gets its separator only when the next key is known; the entry joins block and filter; a full block is written |
| `TableBuilders.TableBuilder.Flush` | leveldb/table/table_builder.cc:125-139 | the block, if there is one, is written at its offset and the filter moves on |
| `TableBuilders.TableBuilder.Finish` | leveldb/table/table_builder.cc:213-268 | data blocks, filter block, metaindex, index and footer, one behind the other |
| `TableBuilders.Build` | leveldb/table/table_builder.cc:94-268 | any ascending entries give the file of their table, byte for byte |
| `TableReaders.BlockStands` | leveldb/table/table_builder.cc:141-209 | every block's bytes stand at its handle's offset |
| `TableReaders.Open` | leveldb/table/table.cc:38-133 | opening a built file finds its index block and its filter block |
| `TableReaders.InternalGet` | leveldb/table/table.cc:154-243 | on the bytes: what is reported is the first entry at or after the key, and that entry, if it has the key's user key, is reported exactly when the filter of its block lets the key through |
| `TableReaders.BuiltServes` | leveldb/table/table.cc:38-243 | the file of any ascending entries is one lookups can be made in |
| `TableReaders.UncompressedSized` | leveldb/table/table_builder.cc:141-209 | without compression every part of a file below 4 GB fits the widths it is stored in |
| `Policies.BloomSound` | leveldb/util/bloom.cc:30-83 | the Bloom policy has no false negatives for any hash, bits per key and keys |
| `Policies.WormholeSoundIff` | leveldb/util/wormhole.cc:128-188 | the wormhole policy has none for keys that crowd no run of buckets, and, when their entries differ, for no others |
| `Policies.FileGet` | leveldb/table/table.cc:38-243 | opening the file of any entries and looking a key up, with any policy: the first entry at or after the key or nothing, and that entry, if it has the key's user key, exactly when the filter made for its group of keys lets it through |
| `Policies.BloomTableGet` | leveldb/table/table.cc:38-243 | with the Bloom policy the first entry at or after the key is reported whenever it has its user key |
| `Policies.BloomBlockSize` | leveldb/util/bloom.cc:30-60 | the number of keys, the bits per key and the number of filters bound the filter block |
| `Policies.SlicesFit` | leveldb/table/filter_block.cc:21-75 | if every run of consecutive user keys crowds no run of buckets, no filter's keys do, wherever blocks end |
| `Policies.WormholeTableGet` | leveldb/table/table.cc:38-243 | with the wormhole policy likewise, if every run of consecutive user keys crowds no run of buckets |
| `Policies.WormholeReadBack` | leveldb/table/table.cc:38-243 | looking every entry's own key up finds it or nothing; all are found if no filter's keys crowd a run of buckets, and, where no filter has two keys with the same entry, only if |
| `Recovery.StepRecoverable` | leveldb/db/db_impl.cc:1200-1271 | every step keeps: the history is what is in files, then the old log, then the current one, and the files alone read as the flushed part |
| `Recovery.RunRecoverable` | leveldb/db/db_impl.cc:1200-1271 | in every state of every run |
| `Recovery.CompactReads` | leveldb/db/db_impl.cc:892-1071 | a compaction changes no read of the files alone |
| `Recovery.PrefixReads` | leveldb/db/db_impl.cc:385-470 | if no write is missing in between, what a crash leaves reads as the history up to the last write left |
| `Recovery.NoHoleIff` | leveldb/db/db_impl.cc:1361-1396 | no crash loses a write and keeps a later one if and only if the old log is synced to its last write or nothing was written since the memtable switch |
| `Recovery.GapReadsIff` | leveldb/db/db_impl.cc:385-470 | whatever a crash leaves, the recovered database reads as the history up to the last write left if and only if every write lost in between is followed by a kept one of its key, or the last of its key repeats what was there before |
| `Recovery.ReadsAsNoPrefix` | leveldb/db/db_impl.cc:385-470 | on every run: if a lost put is the only write of its key and a key is found whose writes are all later, no prefix of the history reads like the recovered database |
| `Recovery.LostBeforeSynced` | leveldb/db/db_impl.cc:1361-1396 | an unsynced write, a memtable switch and a synced write: a crash can leave only the second, which reads as no prefix of the history |
| `Recovery.SyncedSafe` | leveldb/db/db_impl.cc:1230-1236 | a write whose group was synced is in files or in the synced part of a log ever after |
| `Recovery.SyncedKept` | leveldb/db/db_impl.cc:1230-1236 | whatever a crash leaves, a read of the key of a synced write, at any number not below those recovered, is answered with that write or a later one |
| `Recovery.GroupsLogged` | leveldb/db/db_impl.cc:1200-1271 | on runs of group commit on which all goes well the log is that of the finished groups, synced up to the last that asked for it, and its writes are those applied to the memtable |
| `Recovery.GroupsInRun` | leveldb/db/db_impl.cc:1213-1236 | groups committed since the start or a memtable switch leave the database with that log as the current one |
| `Recovery.GroupCommitsLog` | leveldb/db/db_impl.cc:1200-1271 | where the groups since a memtable switch are those of a run of group commit, the current log is that run's, record by record, and as much of it is synced |
| `RecoveryFiles.ReplayLog` | leveldb/db/db_impl.cc:385-470 | a log written as write batches, cut at any byte, read and replayed gives the writes of the records that are whole, and every read of them is answered with what their updates up to its number make of the key |
| `RecoveryFiles.Reopen` | leveldb/db/db_impl.cc:292-383 | MANIFEST and logs after a crash at any point of any run: the current version, and of each log the writes of exactly the records that are whole in its cut file; no synced write is lost; it all reads as the history up to the last write left if and only if what is lost in between is harmless; without a gap every read that sees all that is left is answered as by the first updates committed |

## Left out

- Persistent-memory pools and transactions. Each 8-byte bucket word is flushed by itself and a power loss leaves any value it had since; that a cache line holds eight such words, which a flush makes durable together, is not used.
- Hash functions, false-positive rates and random seeds: every hash is an arbitrary function.
- WormholePolicy.KeyMayMatch: where the code reads outside the filter, because the stored bucket count reaches beyond its bytes, it says only that it does.
- `WormholePolicy.PolicyPromiseIff` is exact for keys with different (bucket, fingerprint) pairs; for lists with repeated pairs it is sufficient only. After a failed insert the table keeps a second copy of a relocated entry, and which one depends on the whole table.
- The load factor comparison of `CreateFilter` is the exact fraction, and the number of buckets of a persistent filter is a parameter; rounding of the doubles they are computed in is not modelled.
- Keys that do not parse as internal keys, and read sampling, in `DbIter`.
- Entries written into the live memtable while a cursor is open: the merged sequence is that of the moment the cursor was made.
- Background scheduling, compaction scores, seek charges, the compaction pointer's update, and which entries `ShouldStopBefore` and the file size stop at (any choice is allowed; the outputs are cut where it says). Recovery and the MANIFEST are modelled for runs on which a compaction is one step.
- Reopening a database: the next log, a crash while the logs are replayed, the flush of a memtable filled by the replay, and reuse of the last log. The logs of `Recovery` are those of runs on which every commit went well: a group whose append or sync failed uses up its numbers.
- I/O errors, except a failed log append, a failed sync and a refused write in `GroupCommit`.
- Opening a log at an initial offset, and appending to a log that was cut inside a record.
- Compaction pointers in the builder, snapshots written to a new MANIFEST, and the file-number and log-number checks of `Recover`. In `RecoverFromManifest` table files are there under their numbers, and the other fields of the records may be anything.
- `RepairDB`: it puts every table on level 0 regardless of age, so the level order does not apply to it.
- Tables without a filter policy, the block cache between the reader and the file, the two-level iterator, write errors while a table is built, and opening files that were not written by the builder: handles, `ReadBlock` and the footer are modelled for any bytes, the lookup for built files. The compressor is any function with an inverse.
- Reading back blocks of 4 GB and more (they are written as the code writes them), and blocks that were not written by the builder, in `BlockIters`; filter blocks of 4 GB and more, likewise; 32-bit overflow of the sum of two lengths in `DecodeEntry`.
- Weak memory ordering: loads and stores of the skip list and steps of the writer queue are sequentially consistent. A search may still see any earlier value of the list height.
- The doubly linked pointers of the cache lists: the lists are sequences from which an entry is unlinked. `hash & (length - 1)` of the hash table is written as a modulus.
- Sharding of the cache, the merging iterator's shortcuts for no and one child, filenames, arena, Env, the C bindings, tools and benchmarks: easy members or plumbing.
