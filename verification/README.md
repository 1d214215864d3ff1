# Flight pipeline: model and proofs

A Dafny model of the offline Flight pipeline: recovery of the crash-safe chunk format, the indexed and
paged scene queries over it, the transactional publication of results, and two supporting state
machines (the LZ4 frame scanner and the injection worker protocol). The model follows the Python
sources file by file. Loops that update state are methods with invariants, objects that are updated in
place are classes, and each is proved against a specification whose own meaning is proved in turn.

How the parts fit:

- `Basics`, `WireRecords`, `Artifact`, `FlightReader`: bytes, wire records, chunks and their decoding.
  Payload decoding is a given function (`Decoder`), so every result holds for every payload grammar.
- `BoundedHeap`: the bounded heaps that all page queries share, proved to hold exactly the first items.
- `SceneLifecycle`, `Pairing`: the bounded call table, and pairing of enter and exit boundaries,
  characterised without any reading order.
- `SceneEvents`, `ScenePages`, `ScenePaging`: the two-pass scene-event page and its cursor.
- `SequenceRanges`, `IndexTables`, `RecoveredRanges`, `KeyedTables`, `SceneIndex`, `IndexQueries`: interval
  accounting, the on-disk scene index and the queries answered from it.
- `Recovery`: recovery's own path to the lost sequences, and its agreement with the index.
- `BoundaryPages`, `Tail`: boundary pages by scan and by index, and tail pages with their early stop.
- `Fragments`, `DamageRejection`, `Spill`: reassembly of split events, rejection of contradictory sealed
  chunks, and the SQLite form of both.
- `Publication`, `ConditionalReplace`: publication with backups and rollback under arbitrary step
  failures, and the inode-conditional exchange under interference.
- `Lz4Frames`, `InjectionWorker`: the frame scanner and the worker, mailbox and monitor protocol.

Hypotheses are explicit. `WellLogged` says that chunks have distinct slots, every chunk reads as its
header says, no two rows of different chunks share a sequence and chunks of one thread do not interleave.
`SealedReadable` is the part of it that an early stop rests on. Bounds of the sources (payload, open
scenes, crossing scenes, page bytes, group size) are modelled with their constants; each query method
states what an error it returns says about its input.

Two properties that the sources suggest are false as stated, and are replaced by exact conditions:

- A forced publication can lose an original: the existence probe before a backup answers "no" when the probe
  itself fails, and then no backup is made. Every run logs its steps, and each destination's probe and
  replacement are named steps of that log. `Publication.OriginalsStayReachableIff` proves that every state up to
  the commit point holds every original if and only if, for each existing destination, the probe worked or the
  replacement had no effect. `Publication.LostIff` says the same of the inode itself: otherwise, unless it had
  another name, it is bound nowhere from then on. `Publication.RollbackRestoresIff` gives the same exact
  condition for a rolled-back run, and `Publication.LoseOriginal` is a run in which only that probe fails, the
  publication succeeds and the file is gone.
- An append to a spill list after a rejection need not append: the list reuses the row count as its next key.
  `Spill.AppendAfterRejectIff` proves that it does exactly when the remaining keys have no gap;
  `Spill.AppendAfterRejectCollides` is an instance. Recovery itself never appends after rejecting.

Check the project with `dafny verify dfyconfig.toml`.

## Model

| member | source | states |
|---|---|---|
| WireRecords.ScanChunkData | scripts/flight_trace.py:425-442 | the scanning loop returns exactly the records, or the first error, that record-by-record decoding gives |
| WireRecords.DecodeOfEncode | scripts/flight_trace.py:389-418 | decoding the image of a valid record gives it back with its size, whatever bytes follow |
| WireRecords.EncodeOfDecode | scripts/flight_trace.py:389-418 | a successfully decoded record is valid and its image is exactly the bytes it occupied |
| WireRecords.SealedScanInvertsEncoding | scripts/flight_trace.py:389-442 | a sealed scan returns records if and only if the data is their canonical encoding: scanning inverts encoding both ways |
| WireRecords.ActiveScanReturnsCommittedPrefix | scripts/flight_trace.py:389-442 | an active scan returns records if and only if the data is their canonical encoding followed by a tail that starts no committed record |
| WireRecords.ScanIncreasing | scripts/flight_trace.py:425-442 | scanned sequences are positive, below 2^64 and strictly increasing |
| WireRecords.ZeroTailUnpublished | scripts/flight_trace.py:397-404 | a zero-filled tail counts as unpublished exactly when the generation differs from the commit constant |
| FlightReader.LoadMeans | qtrace/flight_reader.py:101-110 | a chunk loads with given records, events and fragments if and only if its bytes are their canonical encoding (with an unpublished tail only in an active chunk), a sealed header has its checksum, count and range, and the decoder accepts them |
| FlightReader.LoadChunk | qtrace/flight_reader.py:101-110 | the method succeeds with exactly what the chunk is in that sense, and reports a checksum error exactly when a sealed checksum differs |
| FlightReader.Reader.constructor | qtrace/flight_reader.py:60-66 | a reader starts with nothing charged and nothing decoded |
| FlightReader.Reader.Read | qtrace/flight_reader.py:91-110 | the payload charge stays even when the read fails, the budget is checked first, and only a successful read counts as decoded |
| FlightReader.ReadHonest | qtrace/flight_reader.py:103-105 | every row of a chunk that reads lies inside the header range of a sealed chunk and on the chunk's thread |
| Artifact.LoadedRows | qtrace/flight_reader.py:91-123 | rows of a loaded chunk are distinct records of its own thread inside its sealed range, and its events ascend |
| SceneLifecycle.Lifecycle | scripts/flight_trace.py:939-986 | for every stream the table is exactly the last `maximum` accepted keys with their described rows; `omitted` plus its size is the number of fresh insertions |
| SceneLifecycle.RecencyIsByLastAcceptance | scripts/flight_trace.py:974-985 | the retained keys stand in order of their last acceptance |
| SceneLifecycle.ReturnIsLatest | scripts/flight_trace.py:974-986 | a row claims a return if and only if the latest accepted boundary of its call is a return |
| SceneLifecycle.AcceptKeepsTable | scripts/flight_trace.py:966-985 | accepting one boundary, with reinsertion and eviction, keeps the table described by the longer history |
| SceneLifecycle.BoundaryRow | qtrace/flight_inspection.py:124-130 | the lifecycle of one event is its single row, or a malformed count of one |
| BoundedHeap.OfferAllIsFirst | qtrace/flight_inspection.py:141-146 | after any offers with distinct ranks the bounded heap lists exactly the first `capacity` of them in order |
| BoundedHeap.PageOfHeap | qtrace/flight_scene_events.py:197-203 | a heap with one spare slot yields the page of the first `limit` items and knows whether more exist |
| BoundedHeap.FirstIsUnique | qtrace/flight_scene_events.py:197-203 | the page of a set with distinct ranks is unique |
| Pairing.PairMeans | qtrace/flight_scene_events.py:121-137 | pairing any stream that keeps each call in order yields exactly the scenes, orphans, open calls and mismatches that the set of boundaries determines |
| Pairing.PairRefusesAmbiguity | qtrace/flight_scene_events.py:122-128 | pairing fails on a duplicate entry only if, and succeeds only if not, two enters of one call are adjacent |
| Pairing.OrderDoesNotMatter | qtrace/flight_scene_index.py:180-202 | two orders of the same boundaries that keep each call in order pair to the same scenes, orphans, invalid count and open calls |
| Pairing.OrderDoesNotHideAmbiguity | qtrace/flight_scene_index.py:180-190 | if one such order fails on a duplicate entry, every other order fails too |
| SceneEvents.SelectMark | qtrace/flight_scene_events.py:120-153 | one boundary updates the open map, counters, crossing list and scene heap as pairing and selection prescribe |
| SceneEvents.SelectScene | qtrace/flight_scene_events.py:138-153 | a closed scene is counted, kept in the crossing list or offered to the bounded heap exactly when it matches |
| SceneEvents.SelectEvent | qtrace/flight_scene_events.py:111-153 | one event of the first pass extends the selection of all events read so far |
| SceneEvents.PassOne | qtrace/flight_scene_events.py:73-153 | the first pass leaves the selection of all events of all chunks, or an error with its cause in the input |
| SceneEvents.AppendRow | qtrace/flight_scene_events.py:161-181 | one row enters the page heap with its innermost selected owner, if it has one and lies after the cursor |
| SceneEvents.PassTwo | qtrace/flight_scene_events.py:183-196 | the second pass offers exactly the owned rows of the chunks that selected scenes may need |
| ScenePages.BoundedSelectionIsEnough | qtrace/flight_scene_events.py:138-182 | a page computed from the kept scenes only (crossing ones and the first `limit`+1 later ones) is the page of all overlapping scenes |
| ScenePages.SkippingLosesNothing | qtrace/flight_scene_events.py:78-81 | chunks skipped in the second pass hold no row that any selected scene covers |
| ScenePages.ChunkOrderPairsLikeGlobalOrder | qtrace/flight_scene_events.py:69-137 | pairing in chunk order and in global sequence order give the same scenes, orphan and invalid counts and open calls |
| ScenePages.QuerySceneEvents | qtrace/flight_scene_events.py:22-221 | the page lists the first `limit` owned rows of all overlapping paired scenes with their innermost owners, `has_more`, the cursor and exact counters; errors have a cause in the input |
| ScenePaging.CursorAdvances | qtrace/flight_scene_events.py:197-203 | the next cursor is a valid argument, lies further on and leaves exactly the rows not yet listed, with the same owners |
| ScenePaging.PagesListEveryRowOnce | qtrace/flight_scene_events.py:138-203 | the pages of a cursor chain together list every owned row exactly once, in sequence order |
| ScenePaging.FollowingTerminates | qtrace/flight_scene_events.py:161-203 | from every valid query a finite chain of pages exists |
| ScenePaging.FollowingTheCursor | qtrace/flight_scene_events.py:161-203 | in a well-logged artifact following the cursor terminates and lists every owned row exactly once |
| SequenceRanges.Ranges | scripts/flight_trace.py:885-897 | the result is the canonical intervals that cover exactly the set |
| SequenceRanges.MissingRanges | scripts/flight_trace.py:900-913 | the result is the canonical intervals of the unobserved numbers between start and end |
| SequenceRanges.CanonicalUnique | scripts/flight_trace.py:885-913 | a set has only one canonical list of intervals |
| SequenceRanges.RangesPartitionSpan | scripts/flight_trace.py:885-913 | retained and missing intervals partition every span, and their lengths add up: missing numbers plus retained numbers inside the span are the length of the span |
| IndexTables.KeysAreNumbers | qtrace/flight_scene_index.py:18-23 | 8-byte big-endian keys decode to their number, and blob order on them is numeric order |
| IndexTables.Runs | qtrace/flight_scene_index.py:26-36 | the runs of ascending records are the canonical intervals of their sequences, as keys |
| IndexTables.MergeRuns | qtrace/flight_scene_index.py:133-155 | the sorted walk fails if and only if two runs share a number, and otherwise yields the canonical gaps between the outermost declared or retained numbers |
| RecoveredRanges.LostSequences | scripts/flight_trace.py:1205-1213 | recovery's lost sequences are the canonical missing intervals between the extremes of directory, sealed headers and records |
| RecoveredRanges.ParsedDirectories | scripts/flight_trace.py:341-374 | an accepted directory entry has both ends or neither, in order |
| RecoveredRanges.GapTableIsLost | qtrace/flight_scene_index.py:133-155 | gaps over the reliable directory ranges equal gaps over directory and header ranges when header ends are retained |
| KeyedTables.InsertUnique | qtrace/flight_scene_index.py:123-124 | a primary-key insert succeeds if and only if the key is new |
| KeyedTables.SortByKeyKeeps | qtrace/flight_scene_index.py:296-297 | reading a unique-key table in key order yields its rows in numeric order |
| SceneIndex.CollectEvents | qtrace/flight_scene_index.py:108-124 | the boundary and coverage tables hold exactly the rows of the events read; a repeated key is an error |
| SceneIndex.CollectChunks | qtrace/flight_scene_index.py:96-125 | the tables hold the runs, boundaries and coverage of every chunk, and each thread with records is mapped to its greatest record sequence, or the error has a cause in the input |
| SceneIndex.CollectEmergencies | qtrace/flight_scene_index.py:126-132 | each emergency event adds one run and its coverage gap, and each thread stays mapped to the greatest sequence of its records and emergencies |
| SceneIndex.PairClosed | qtrace/flight_scene_index.py:180-200 | walking the boundaries retains exactly the closed calls of their pairing, each ending at its own closing boundary, so that different boundaries give different calls |
| SceneIndex.AddOpenCalls | qtrace/flight_scene_index.py:201-202 | exactly the calls still open are added, once each, up to the sequence their thread is mapped to |
| SceneIndex.PairCalls | qtrace/flight_scene_index.py:161-202 | the calls table lists exactly the paired scenes, orphan ends and open calls, and none twice when the boundaries have different sequences |
| SceneIndex.BuildSceneIndex | qtrace/flight_scene_index.py:50-234 | a built index holds exactly the gaps, calls, boundaries, coverage and counters of its artifact, no call twice, with an open call ending at its thread's greatest retained sequence; errors have a cause in the input |
| IndexQueries.GapsAreMissing | qtrace/flight_scene_index.py:133-155 | the gap table of a built index is the list of missing intervals that recovery's span gives for the same retained sequences |
| Recovery.DecodeChunks | scripts/flight_trace.py:1019-1092 | recovery keeps the chunks that read and hold records, and fails only on an active chunk that does not read |
| Recovery.Observe | scripts/flight_trace.py:1147-1176 | observing survivors and emergency slots fails if and only if two of them share a sequence, and otherwise yields exactly their sequences |
| Recovery.Recover | scripts/flight_trace.py:1019-1213 | recovery reads, rejects contradicting chunks, observes and lists the lost sequences of the survivors; each error has its cause |
| Recovery.NothingRejected | scripts/flight_trace.py:1100-1176 | a recovery that rejects nothing observes exactly the sequences the index retains |
| Recovery.GapTableMatchesRecovery | qtrace/flight_scene_index.py:133-155 | the gap table of a built index equals the lost sequences of any recovery of the same artifact that rejects nothing |
| IndexQueries.SceneAt | qtrace/flight_scene_index.py:317-356 | the calls around a sequence, latest entry first, each with its uncertainty and, from a table without repeated calls, none twice; `has_more` if and only if more than `limit` calls lie around it, and otherwise all of them |
| IndexQueries.ObservedMeansRetained | qtrace/flight_scene_index.py:317-356 | a call without uncertainty has every number from its entry to the sequence retained and no coverage gap between |
| IndexQueries.BuiltCallsKeyed | qtrace/flight_scene_index.py:164-178 | every call of a built index is filed under the 8-byte key of its entry or last sequence |
| BoundaryPages.QuerySceneBoundaries | qtrace/flight_inspection.py:68-152 | the scan keeps the first `limit` boundaries of the chunks it may not skip; errors have a cause in the input |
| BoundaryPages.SkippingKeepsLines | qtrace/flight_inspection.py:104-105 | skipping sealed chunks that end at or before the cursor changes no boundary line |
| BoundaryPages.ScannedPageMeans | qtrace/flight_inspection.py:98-148 | a scanned page is the first `limit` boundaries of the whole artifact in the window, with exact `has_more` |
| BoundaryPages.QueryIndexedBoundaries | qtrace/flight_scene_index.py:287-314 | the indexed query lists the table rows in the window in key order, stopping one row after the limit |
| BoundaryPages.IndexAgreesWithScan | qtrace/flight_scene_index.py:287-314 | for every built index both queries return the same rows, `has_more` and cursor, for every window, cursor and limit |
| Tail.Append | qtrace/flight_tail.py:24-37 | one row is dropped, or replaces the oldest held row, and the page size is charged for exactly the held rows |
| Tail.NoteSequences | qtrace/flight_tail.py:57-60 | noting sequences fails exactly with one that was there before |
| Tail.ReadEmergencies | qtrace/flight_tail.py:39-45 | emergency events are noted and offered before any chunk |
| Tail.ReadNext | qtrace/flight_tail.py:56-64 | reading one chunk charges it, notes its records and offers its rows |
| Tail.ReadChunks | qtrace/flight_tail.py:46-64 | active chunks are read first, sealed ones from the newest down, until a sealed chunk ends before the oldest held row |
| Tail.EarlyStop | qtrace/flight_tail.py:48-55 | the early stop and the range skip lose none of the `limit`+1 newest rows |
| Tail.QueryTail | qtrace/flight_tail.py:13-74 | the page holds exactly the `limit` newest rows of the range and the correct `has_more`; errors have a cause in the input |
| Tail.TailCursorRecedes | qtrace/flight_tail.py:65-69 | the next cursor is a valid argument, lies further back and leaves exactly the rows not yet listed |
| Tail.TailPagesListEveryRowOnce | qtrace/flight_tail.py:65-69 | the pages of a tail cursor chain list every row of the range exactly once, newest first |
| Tail.TailFollowingTerminates | qtrace/flight_tail.py:65-69 | from every valid query a finite chain of tail pages exists |
| Fragments.GroupFragments | scripts/flight_trace.py:726-729 | the grouping loop builds the groups of an insertion-ordered dictionary |
| Fragments.GroupedIs | scripts/flight_trace.py:726-729 | per distinct key, in order of first encounter, a group lists exactly the fragments of that key |
| Fragments.DecodeFragments | scripts/flight_trace.py:719-771 | the groups are decoded in order up to the first that contradicts itself |
| Fragments.PartialMeans | scripts/flight_trace.py:744-752 | an incomplete entry names exactly the missing indexes, ascending, and all retained sequences |
| Fragments.WholeIs | scripts/flight_trace.py:753-770 | a whole event joins the details in index order; its sequence is the largest, its offsets are sorted and its own offset is the least |
| Fragments.SplitReassembles | scripts/flight_trace.py:753-770 | a detail split into parts, in any order and from any chunks, decodes to the detail |
| Fragments.SpreadDetailReturns | scripts/flight_trace.py:719-771 | among any other fragments that decode, a spread detail comes back as one event |
| Fragments.EveryFragmentOnce | scripts/flight_trace.py:719-771 | on success every fragment is accounted for exactly once, and there is one result per key |
| Fragments.GroupsDecodeIff | scripts/flight_trace.py:732-759 | decoding succeeds if and only if every group is consistent |
| Fragments.ErrorNamesGroup | scripts/flight_trace.py:734-759 | a failure names exactly the chunks of some inconsistent group |
| DamageRejection.RejectDamage | scripts/flight_trace.py:1100-1145 | the rejection loop terminates with the outcome of the rounds of rejection |
| DamageRejection.RejectMeans | scripts/flight_trace.py:1100-1145 | recovery removes exactly the reported sealed chunks, each blamed by a contradictory group at its round, or fails because an active chunk is among the culprits |
| DamageRejection.RoundReports | scripts/flight_trace.py:1132-1142 | a round reports each contributor once, in slot order |
| DamageRejection.SomeContributor | scripts/flight_trace.py:1126-1131 | some remaining chunk always contributes to the contradictory group, so each round removes one |
| DamageRejection.SurvivorsConsistent | scripts/flight_trace.py:1100-1145 | every active chunk survives and every group of the survivors is consistent |
| Spill.KeysAreFirstKeys | scripts/flight_storage.py:192-194 | grouping by blob keys ordered by least row number meets the keys in order of first encounter |
| Spill.ReadGroup | scripts/flight_storage.py:195-203 | a group is collected if and only if it stays within both bounds |
| Spill.SpillDecode | scripts/flight_storage.py:178-203 | decoding the table agrees with in-memory decoding, or a group exceeds the memory bound |
| Spill.DiskList.constructor | scripts/flight_storage.py:25-32 | a new list is empty and counts from zero |
| Spill.DiskList.Append | scripts/flight_storage.py:34-47 | an append inserts under the next ordinal, fails exactly when it is taken, and appends when all ordinals are smaller |
| Spill.DiskList.RejectChunks | scripts/flight_storage.py:116-119 | the rows of the named chunks are deleted, the others stay in order, and the count is recomputed |
| Spill.AppendAfterRejectIff | scripts/flight_storage.py:34-47 | after a rejection an append lands at the end exactly when the ordinals have no gap |
| Spill.AppendAfterRejectCollides | scripts/flight_storage.py:116-119 | a run of the list: append two chunks, reject the first, and the next append is refused while the second chunk stays |
| Spill.RejectionKeepsBounds | scripts/flight_storage.py:195-203 | rejecting chunks never makes a group exceed a bound |
| Spill.SpillReject | scripts/flight_trace.py:1100-1125 | the loop over the spill collections gives the same survivors, damage and events as the in-memory loop unless a group exceeds the memory bound |
| Publication.Directory.Perform | scripts/flight_convert.py:194-307 | every step is logged, and the log and the schedule of failures determine every state of the directory |
| Publication.GoneForGood | scripts/flight_convert.py:194-307 | an inode that a state no longer binds is bound by no later state |
| Publication.Backup | scripts/flight_convert.py:175-191 | a backup is a new link of the destination's inode and the only new name; none is made exactly when the destination is absent or its probe, the first step, failed; a half-made one is removed or noted |
| Publication.MakeBackups | scripts/flight_convert.py:195-219 | every destination is probed in order at a logged step and backed up unless absent or that probe failed; on failure every name left behind is reported, noted, or has a failed probe or a late creation failure of its own; no earlier binding ever changes |
| Publication.DropBackups | scripts/flight_convert.py:199-219 | after a failed backup each earlier one is removed, or its own removal failed and it is reported, or its own probe failed |
| Publication.ReplaceAll | scripts/flight_convert.py:221-228 | in every state exactly some first pairs are replaced; a replacement takes effect exactly when its logged step is not failed before its effect; it ends early only if a step failed or a temporary is missing |
| Publication.RestoreFromBackup | scripts/flight_convert.py:235-255 | one destination gets its original back and the backup name is gone, or the original stays held by the backup and a step failed |
| Publication.RemovePublished | scripts/flight_convert.py:256-265 | a published file without backup is removed, or the failure is told; a destination that was not replaced is left alone |
| Publication.Rollback | scripts/flight_convert.py:229-287 | with a backup a destination has its original again or its backup is reported and holds it; without one an unreplaced destination keeps its original and a replaced one is removed or reported; every backup is gone, reported, or its own probe failed; artifacts are reported only if a step of the rollback failed |
| Publication.ClearBackups | scripts/flight_convert.py:288-307 | after the commit point the destinations stay new; each backup is gone, or its own removal failed and it is reported, or its own probe failed |
| Publication.PublishForce | scripts/flight_convert.py:194-307 | under every schedule of step failures: all destinations new at the commit point and after, or every pair settled; probes and replacements are logged steps; not published only if a step other than a probe failed or a temporary is missing |
| Publication.OriginalsStayReachableIff | scripts/flight_convert.py:194-287 | every state up to the commit point of a run binds every original to its destination or its backup if and only if, for each existing destination, the probe worked or the replacement had no effect |
| Publication.LostIff | scripts/flight_convert.py:98-99 | the inode of an existing destination without other names is bound in every state up to the commit point if and only if the same condition holds; otherwise it is bound nowhere from the last replacement on |
| Publication.LoseOriginal | scripts/flight_convert.py:175-177 | a run of the publisher in which only the first existence probe fails: it publishes, and the original inode is bound to no name |
| Publication.RollbackRestoresIff | scripts/flight_convert.py:229-287 | after a rollback a destination has its original binding, or is reported with the backup that holds it, or is a reported new file, if and only if it did not exist, its probe worked or its replacement had no effect |
| Publication.PublishNoReplace | scripts/flight_convert.py:131-172 | no earlier binding ever changes; all destinations are linked, or each is as before or reported; refused only if a destination existed; rolled back only if a step failed or a temporary is missing; a destination is reported only if a step that looks at it or removes it failed |
| ConditionalReplace.Shared.Swap | qtrace/report.py:22-31 | the exchange swaps both names or changes nothing |
| ConditionalReplace.Shared.DiscardTemporary | qtrace/report.py:57-67 | discarding removes only the temporary and tolerates its absence |
| ConditionalReplace.ConditionalReplaceAt | qtrace/report.py:70-133 | whatever other writers install between steps, only the own temporary or the expected inode is unlinked, true is returned only if the displaced inode was the expected one, and any other displaced inode, and any inode displaced by an exchange that is not verified or found changed, stays at the temporary name or is exchanged back |
| Lz4Frames.ScanStream | scripts/lz4_frames.py:55-129 | the scan is the frame-by-frame walk of the data |
| Lz4Frames.ScanFrame | scripts/lz4_frames.py:70-103 | one frame header is read with the checks in their order |
| Lz4Frames.ScanBlocks | scripts/lz4_frames.py:105-127 | the block loop ends with a whole frame, a cut one, or the offset of a bad block |
| Lz4Frames.FrameReads | scripts/lz4_frames.py:49-127 | reading any prefix or extension of a well-formed frame yields the whole frame if it is all there, and a cut otherwise |
| Lz4Frames.CutAtAnyByte | scripts/lz4_frames.py:55-129 | for any well-formed frames cut at any byte: exactly the whole standard frames, the last frame end, truncation if and only if the cut is not a frame boundary, failure if and only if no standard frame is whole |
| Lz4Frames.FrameOf | scripts/lz4_frames.py:70-127 | bytes that read as a whole frame are the encoding of a well-formed frame |
| Lz4Frames.ScannedIsFrames | scripts/lz4_frames.py:55-129 | whatever scans is, up to its complete bytes, the encoding of well-formed frames whose standard ones are the spans; a truncated scan stops at an incomplete frame and any other at the end |
| Lz4Frames.SplitLz4Frames | scripts/lz4_frames.py:139-146 | splitting slices the data at the scanned spans |
| Lz4Frames.SplitReturnsWholeFrames | scripts/lz4_frames.py:139-146 | splitting a cut stream returns exactly the encodings of its whole standard frames |
| InjectionWorker.WorkerState.constructor | qtrace/injector.py:869-877 | a monitor starts with nothing recorded |
| InjectionWorker.WorkerState.RecordWorkerEvent | qtrace/injector.py:880-932 | an event is accepted exactly when the events so far followed by it are a protocol run |
| InjectionWorker.OutcomeIsLast | qtrace/injector.py:883-931 | in every accepted run at most one outcome occurs, and only completion follows it |
| InjectionWorker.ResultNeedsResume | qtrace/injector.py:886-917 | in every accepted run the result comes after the resume of its PID, which comes after its spawn |
| InjectionWorker.PrefixAccepted | qtrace/injector.py:639-643 | losing the events after a broken channel leaves an accepted run |
| InjectionWorker.Mailbox.constructor | qtrace/injector.py:446-458 | a mailbox starts before initialization, resume and installation |
| InjectionWorker.Mailbox.Receive | qtrace/injector.py:472-481 | arrivals are queued in order with the phases of their arrival, and a detachment is noted at once |
| InjectionWorker.Mailbox.Accept | qtrace/injector.py:526-588 | a message is accepted only in its phase; initialization, resume and installation happen in this order for one generation |
| InjectionWorker.HeardWasDelivered | qtrace/injector.py:472-481 | everything the worker looks at arrived during one of its steps and carries the phases of that step |
| InjectionWorker.Drain | qtrace/injector.py:500-504 | handling the queue stops at the first detachment heard or at the first message heard that what the accepted ones before it taught refuses; otherwise everything heard is accepted and the mailbox knows exactly what it amounts to |
| InjectionWorker.KnowledgeIsReported | qtrace/injector.py:562-588 | what a mailbox knows from accepted messages was reported: the initialization, and after the resume the installation of the same generation |
| InjectionWorker.WaitFor | qtrace/injector.py:494-511 | waiting ends with everything heard accepted and the phase reached, or with a failure that has the cause of its kind; if only the awaited message comes, in time, the phase is reached |
| InjectionWorker.WaitForProcessExit | qtrace/injector.py:483-492 | an exit is confirmed if and only if the attached session reported the process terminated; it waits until a report or the deadline |
| InjectionWorker.WaitForDetachedInstallation | qtrace/injector.py:591-626 | after an early detach success means that the last status read is a receipt for this PID and the generation it reported; a failure has the cause of its kind, judged by what was heard before the detachment; a receipt that comes in time gives success |
| InjectionWorker.CauseIsUnique | qtrace/injector.py:494-626 | a run has at most one cause of failure: the kind of a failure is determined by the calls, what was heard and the plan |
| InjectionWorker.EvidenceExcludesFailure | qtrace/injector.py:494-626 | a run with the evidence for a success has no cause of any failure |
| InjectionWorker.SetupOpens | qtrace/injector.py:717-797 | whichever calls a setup got to, its events are the spawned PID and then at most one resume of it |
| InjectionWorker.Setup | qtrace/injector.py:717-811 | the calls are made in order up to the first that fails, and determine the handles held; the setup fails with exactly the failure that the run causes, and succeeds exactly with its evidence and no cause; a cooperative course succeeds |
| InjectionWorker.CleanSpawn | qtrace/injector.py:815-834 | exactly a spawned process that was never resumed gets one cleanup event, complete if and only if its session reported the termination; the abort call is made exactly if the script is loaded, the process not known to be gone and there is time |
| InjectionWorker.RunInjectionWorker | qtrace/injector.py:692-866 | the events are the opening, the cleanup event exactly if spawned and not resumed, one outcome and the completion, an accepted run; an error stands for exactly the one failure that the run causes; a result has its evidence for one PID and generation and no cause of failure; every held script and session is released, and a failed release is told; a cooperative course ends in a result |

## Left out

- Time, deadlines and cancellation: a deadline is a step count in the worker and absent from the queries.
- The superblock, chunk header and emergency slot parsers, and the agreement of directory and chunk headers: chunks arrive with validated headers.
- Instruction, memory and event payload grammars, JSON text, UTF-8 and regular expressions: given functions and predicates.
- The final JSON size check of a query result (qtrace/flight_reader.py:126-135): the page size bound while rows are collected is modelled.
- The identity and staleness checks of an index file against its source (qtrace/flight_scene_index.py:236-280).
- The list of owning scenes beside a scene-event page, and per-call instruction counts and address summaries of the index: projections of the rows and calls proved here.
- Recovery's summary, thread state, termination and signal annotations, and its physical record projection: projections of the recovered events.
- `DiskSet` and lazy lists of the spill storage: a set in key order.
- ADB, Frida, Gradle, device binding, command lines, process sandboxes and benchmarks.
- ScenePages.QuerySceneEvents: the page is exact for well-logged artifacts; with interleaving chunks of one thread pairing follows chunk order. The bound on scenes that cross the cursor depends on the order in which scenes close, so an error of that kind speaks of the scenes closed so far.
- Tail.QueryTail: chunks are assumed to have distinct slots, as the header loop guarantees, and unread sealed chunks to read as their headers say.
- SceneIndex.BuildSceneIndex: the index is a value; its file, metadata rows and atomic replacement are not modelled.
- Recovery.GapTableMatchesRecovery: compares with a recovery that rejects no chunk; rejected chunks stay in the index.
- Recovery.Recover: records are numbered from zero in each chunk, so record ordinals across chunks are not modelled; damage of unreadable sealed chunks is not listed.
- DamageRejection.RejectDamage: chunk slots are distinct and fragments carry their own slot, as the chunk loop guarantees; damage lines are records, not text.
- Spill.SpillDecode: SQLite tables are sequences of rows in key order; pickling and the page budget are not modelled; event identifiers are 64-bit.
- Publication.PublishForce: one directory, no other writer, no symbolic links, inode numbers are not reused; a fault is never reported as a missing file. Destinations and temporaries are distinct and temporaries have inodes of their own, as their construction guarantees.
- ConditionalReplace.ConditionalReplaceAt: other writers reach only the target, because the temporary name is private; directory descriptors are implicit.
- InjectionWorker.RunInjectionWorker: agent messages are classified by validity predicates; the parent's process handling around the monitor is not modelled.
