# Verification of the Salamander engine

This project models the storage engine and the layers that must agree with it, and
proves what they promise. Everything is in Dafny 4.11; `dafny verify dfyconfig.toml`
checks the whole project.

## What is modelled

**Frames and recovery.** `Format`, `Codec` and `Crc` give the byte format and the
buffer-growing encoder and cursor-consuming decoder that implement it; CRC32C is the left
fold of RFC 3720 section 12.1. `RecordWalk` is the recovery scan over arbitrary bytes,
`SegmentFile` the active segment.

**The log.** `LogMachine` is a state machine whose steps are appends, commits, the three
stages of a roll, retention, reclaim and crashes; a crash keeps each file's synced bytes
and any prefix of its unsynced tail. `LogSafety` proves what every run keeps, `Durability`
exactly what outlives further crashes. `Log` is the object whose methods are those steps.

**Reading.** `ReadPlan` says what a read selects from the flat event list; `Continuity`,
`SegmentCursor`, `Sidecar` and `StreamingReader` are the reader with its segment skips,
seek points and batch continuity; `LogReading` proves that it refines the plain filter.
`SidecarFormat` is the sidecar file. `ReadEvidence` keeps what a reader has seen of segments
that may hold anything, `Damage` proves that silence means whole segments.

**The database.** `Branches` and `BranchCatalog` hold ancestry, cascaded caps and the
divergence; `StreamCatalog` the four maps that are updated batch by batch and rebuilt
record by record. `AppendMachine` says how every request is answered, `AppendLaws` and
`AppendSafety` what every reachable database keeps, `Retries` what repeats are answered
with, `Expectations` what optimistic concurrency guards, `Timelines` the diff, `Forks` what
a fork inherits and what archiving freezes. `Database` is the object over the real log, catalogs and
reader; `Rebuild` and `SystemRead` are its opening, what a crashed log rebuilds to, and
`Checkpoint` the catalog an opening may adopt instead.
`Replication` is the ingestion of another database's batches. `Occurrences` holds
concrete inputs for the failures listed below.

**Feeds, paging and projections.** `Feed` and `Paging` are the two paging loops and their
completeness over whole runs. `Healing` proves lazy partition healing against full replay,
`Projection` runs it through the database's reader. `Wakeup` is the feed's wake-up
protocol. `IndexedView` is the in-place secondary index, `ImportId` the import identity.

## Assumptions

- Appended bytes land at the end of the active segment, and a reader has its own place in
  the file; the operating system's shared file position is not modelled.
- The manifest write and the removal of a reclaimed file are atomic; file-system errors,
  the lock file and directory syncing are not modelled, crashes are.
- Positions and revisions stay below 2^64: operations that advance them require it.
- Generated event IDs are new. Derived stream IDs, request digests, the clock, the commit
  policy's verdict and encoded branch payloads are inputs.
- Where a read is proved to be the plain filter, a sidecar handed to it is one the engine
  built for that segment; what a read says of any bytes with any sidecars is in `Damage`.
- Decoding a payload is an arbitrary function of the record; a branch frame's payload
  decodes to the branch it was written for.

## Where the code and its promises part

- A batch whose events carry different batch IDs is written and then dropped on the next
  open (`SegmentFile.MixedBatchIsDropped`, `Occurrences.MixedBatchHappens`). The database
  never writes one.
- A full segment that holds no events cannot be rolled, because its successor would have
  its name; from then on every append is refused (`Log.StuckForever`). Forks before the
  first event can fill a segment that way (`Occurrences.StuckHappens`).
- A batch ingested from another database may carry that database's idempotency key in its
  metadata. The live catalog ignores it, a rebuild does not: they agree after an append
  exactly if it brings no such key (`Retries.AppendAgreement`,
  `Occurrences.ForeignKeyHappens`). If only some events of a batch carry the key, the
  rebuilt entry's receipt covers the batch up to the last of them
  (`AppendLaws.KeysIndexed`).
- When a key is written from two partitions, lazy healing need not equal full replay. One
  round of heals from cold does, in every order, exactly if the partitions agree about each
  key's last write (`Healing.OrderIndependence`, `Healing.LastWritesCanDisagree`). With
  snapshots and restarts that is not enough: every run that ends at the head equals the
  replay exactly if no key is shared (`Healing.OwnershipIsExact`), and a shared key can
  vanish from every partition (`Healing.SharedKeyCanVanish`).
- An append that syncs publishes the core catalog twice under one head, first without the
  batch just written (`Checkpoints.PublishedIndexes`). Opening trusts a catalog whose head
  is the log's, so a crash between the two opens a database without its invariant
  (`Checkpoints.FirstPublicationLosesInv`) that stores the same request again
  (`Checkpoints.FirstPublicationForgets`). An adopted catalog is sound exactly if it covers
  every batch (`Checkpoints.AdoptedKeepsInv`, `Database.Salamander.Open`), which its
  receipts would show (`Checkpoints.ReachingIsComplete`).
- A waiter that finds a newer head skips its wait but keeps the lock during its call; with
  the sequencer between its store and the lock, both block for good
  (`Wakeup.EmbraceIsReachable`). Exactly the calls that skipped their wait are at risk
  (`Wakeup.EmbraceIffWaitSkipped`), and while one is caught no other call is answered
  (`Wakeup.CallIsAnsweredUnlessEmbraced`).
- Opening a log whose scan is clean does not sync it, although the database then takes the
  head as durable. That head is durable exactly if the open cut off a torn tail or read
  back nothing that was never synced (`Durability.ReopenedHeadIsDurable`); the next commit
  makes it so (`Durability.CommitSettles`), until then a second crash can take it back
  (`Durability.UnsyncedHeadIsLost`, `Database.DurableHeadIsDurable`).

## Model

| member | source | states |
|---|---|---|
| Crc.AppendConcat | salamander/src/format/mod.rs:543-547 | `crc32c_append` continues a fold: the checksum of a concatenation is the checksum of the second part started from that of the first, for all byte strings. |
| Crc.OneByteTells | salamander/src/format/mod.rs:543-547 | Two byte strings that differ in exactly one byte never have the same checksum. |
| FormatLaws.FrameRoundTrip | salamander/src/format/mod.rs:291-426 | Decoding an encoded record, followed by any bytes whatever, returns exactly that record and the length of its frame. |
| FormatLaws.FramesAreSelfDelimiting | salamander/src/format/mod.rs:291-426 | For every encodable record: the frame decodes with any trailing bytes, every strict prefix of it is incomplete rather than corrupt, and the header probe gives its length. |
| FormatLaws.StrictPrefixIsIncomplete | salamander/src/format/mod.rs:362-388 | Whatever buffer decodes to a frame, each of its shorter prefixes decodes to "incomplete". |
| FormatLaws.ProbeAgreesWithDecode | salamander/src/format/mod.rs:328-426 | On arbitrary bytes the length probe and the full decoder, which check the header each for itself, never disagree: a decoded frame has the probed length, an incomplete one is incomplete or longer than the buffer to the probe, the decoder fails with every error of the probe, and its own errors are those or lie behind a header whose length the probe gives. |
| FormatLaws.DecodeDependsOnFrameOnly | salamander/src/format/mod.rs:362-426 | Bytes behind a frame cannot influence how it decodes. |
| FormatLaws.DamagedByteIsRefused | salamander/src/format/mod.rs:362-426 | Change any one byte of a frame, its two length fields apart, and it decodes to an error, whatever follows it. |
| FormatLaws.EnvelopeRoundTrip | salamander/src/format/mod.rs:428-541 | Every envelope that encodes decodes back to itself, metadata order, timestamp sign and all. |
| FormatLaws.CrcCoversAllButItself | salamander/src/format/mod.rs:543-547 | The frame checksum covers every byte but its own field, so patching it in afterwards does not disturb it. |
| Codec.Encode | salamander/src/format/mod.rs:291-326 | The buffer-growing encoder, checksum patched in last, writes exactly the frame the round trip is proved for, and fails for the same inputs. |
| Codec.DecodeEnvelope | salamander/src/format/mod.rs:473-541 | The cursor-consuming decoder computes the envelope function of the round trip, trailing bytes and duplicate keys refused. |
| RecordWalk.ScanRecords | salamander/src/log/segment.rs:345-450 | The scanning loop over position, valid prefix and pending batch computes the record-walk function on every buffer. |
| RecordWalkLaws.ScanIsSound | salamander/src/log/segment.rs:345-450 | On any bytes: a successful scan's kept prefix is an image of whole valid units whose events are dense from the base, and its records are exactly those units' events and system frames; nothing of an uncommitted batch appears. |
| RecordWalkLaws.RecoveryIsFixpoint | salamander/src/log/segment.rs:345-450 | Rescanning the kept prefix returns the same records and next offset with a clean end. |
| RecordWalkLaws.CutRecoversWholeUnits | salamander/src/log/segment.rs:345-450 | A written image cut at any byte scans to exactly the units that fit whole below the cut. |
| RecordWalkLaws.ScanOfImage | salamander/src/log/segment.rs:345-450 | An uncut image scans back to its own units. |
| RecordWalkLaws.ScanKeepsWholeUnits | salamander/src/log/segment.rs:345-450 | Whatever bytes follow the units of a segment, a scan that succeeds keeps every one of them. |
| SegmentFile.WrittenBatchIsValid | salamander/src/log/segment.rs:123-176 | A batch written under one batch ID is a bracketed unit the scan accepts whole, holding the given events at consecutive positions. |
| SegmentFile.MixedBatchIsDropped | salamander/src/log/segment.rs:123-176 | A batch whose events carry two batch IDs is accepted by the append and dropped, with everything behind it, by the next open. |
| Occurrences.MixedBatchHappens | salamander/src/log/segment.rs:123-176 | Two events under two batch IDs are such a batch: written without an error, dropped by the next open. |
| SegmentFile.Segment.Open | salamander/src/log/segment.rs:53-92 | Opening truncates the file to the scanned prefix; an image cut anywhere comes back as its whole units. |
| SegmentFile.Segment.AppendBatch | salamander/src/log/segment.rs:123-176 | Appends exactly the batch's bytes and advances the next position by its size, or changes nothing. |
| SegmentFile.Segment.AppendEnveloped | salamander/src/log/segment.rs:113-121 | Appends one event outside any batch at the next position, or changes nothing. |
| SegmentFile.Segment.AppendSystem | salamander/src/log/segment.rs:178-195 | Appends one system frame without moving the next position, or changes nothing. |
| LogSafety.CrashReopens | salamander/src/log/mod.rs:90-200 | A crash that keeps each file's synced bytes and any prefix of its unsynced tail, at any stage of a roll, reopens to the state holding the retired segments whole and the active one's whole units below the cut; an orphan segment changes nothing and no committed position is lost. |
| LogSafety.RetiredSurvive | salamander/src/log/mod.rs:480-497 | A crash may cut every retired file behind its synced part, yet none loses a byte, because the roll synced it before the manifest moved on. |
| LogSafety.FreshDisksOpen | salamander/src/log/mod.rs:540-575 | A first open, also one interrupted before its manifest was written, yields the empty log. |
| LogSafety.StepKeeps | salamander/src/log/mod.rs:203-327 | Every append, commit, roll stage, retention step and crash, which may cut every segment file, keeps the log invariant, retired segments fully synced, and every committed record. |
| LogSafety.CommittedIsForever | salamander/src/log/mod.rs:217-235 | Over any run of steps and crashes, each position below a returned commit head reads as the same record until retention moves the floor above it. |
| LogSafety.RetainKeeps | salamander/src/log/mod.rs:302-327 | Raising the floor keeps the invariant and every readable record at or above the new floor. |
| LogSafety.ReclaimKeeps | salamander/src/log/mod.rs:271-293 | Removing segments below the floor, whichever removals fail, leaves the readable events exactly as they were. |
| LogLaws.BoundaryIsBase | salamander/src/log/mod.rs:302-327 | The retention boundary is the base of a segment, never below the old floor nor above the request. |
| LogSafety.ReachableIsInv | salamander/src/log/mod.rs:90-327 | Every state reachable from a fresh log, crashes included, satisfies the invariant. |
| Durability.DurableIffSynced | salamander/src/log/mod.rs:232-235 | The positions below any bound outlive every run of the log, crashes included, exactly if the bound lies within what was synced. |
| Durability.UnitsAreForever | salamander/src/log/mod.rs:232-235 | Every synced unit, system frames included, is still in the log after every run, in its place, unless retention moved the floor above its segment. |
| Durability.FramesDurableIffSynced | salamander/src/log/mod.rs:224-235 | The system frames of the log outlive every run, crashes included, exactly if none of them is waiting to be synced. |
| Durability.ReopenedFramesAreDurable | salamander/src/log/segment.rs:53-92 | The frames a log reads back after a crash outlive every further run exactly if the open cut off a torn tail or read back no frame that was never synced. |
| Durability.ReopenedHeadIsDurable | salamander/src/log/segment.rs:53-92 | The head a log reports after a crash and an open outlives every further run exactly if the open cut off a torn tail, which syncs, or read back no event that was never synced. |
| Durability.UnsyncedHeadIsLost | salamander/src/log/segment.rs:53-92 | From every state: append, crash losing nothing, open, crash again, and the head the open reported is gone. |
| Durability.CommitSettles | salamander/src/log/mod.rs:232-235 | A commit after the open makes the reported head durable. |
| Log.RollIsSteps | salamander/src/log/mod.rs:493-537 | A roll is exactly three steps of the machine, so a crash between any two of them is covered. |
| Log.Log.Open | salamander/src/log/mod.rs:90-200 | The listing walk accepts exactly the directories the specification accepts; from what a crash left behind it rebuilds the machine's state after that crash. |
| Log.Log.IsReopened | salamander/src/log/mod.rs:90-200 | The object opened from a crash's directory is valid and its state is the crashed machine's. |
| Log.Log.Roll | salamander/src/log/mod.rs:493-537 | Syncs, creates and switches as the three machine steps; a segment without events cannot be rolled and stays active. |
| Log.Log.AppendBatch | salamander/src/log/mod.rs:217-222 | Rolls first when full, then appends at the head, returning the positions taken; a refusal changes no event. |
| Log.StuckForever | salamander/src/log/mod.rs:493-497 | A log whose full active segment holds no event refuses every batch and system frame of every later sequence of calls, commits between them included, and its contents never change again. |
| Log.FreshRunsAreSized | salamander/src/log/mod.rs:217-230 | Over every sequence of calls from a fresh log: a segment takes a batch or frame only while it is smaller than the size limit, and is retired only once it is not. |
| Log.SizedAfterCrash | salamander/src/log/segment.rs:53-92 | A crash at any point keeps those sizes. |
| Occurrences.StuckHappens | salamander/src/log/mod.rs:493-497 | For every segment size such a log is reachable: system frames alone fill the first segment. |
| Occurrences.UnsyncedHeadHappens | salamander/src/log/segment.rs:53-92 | One batch in a fresh log: head 1 after the first crash and open, head 0 after the second. |
| Log.Log.AppendSystem | salamander/src/log/mod.rs:224-230 | Rolls first when full, then appends the system frame; no position is taken. |
| Log.Log.Commit | salamander/src/log/mod.rs:232-235 | Everything appended becomes synced and the returned head is the committed one. |
| Log.Log.ActivateRetention | salamander/src/log/mod.rs:253-269 | The floor moves forward within the head or nothing changes. |
| Log.Log.ReclaimBelowRetentionFloor | salamander/src/log/mod.rs:271-293 | Keeps exactly the segments at or above the floor plus those whose removal failed, and accounts for the bytes that went. |
| Log.Log.RetentionFloorForBytes | salamander/src/log/mod.rs:329-355 | Finds the lowest base from which the retained bytes fit the target, or reports that not even the active segment fits. |
| ReadPlan.PrunedHoldsNothing | salamander/src/log/reader.rs:261-277 | A segment that holds a position of the window always lies in the chosen index range. |
| ReadPlan.ProbedIsMember | salamander/src/log/reader.rs:91-99 | The binary search over a selector's stream list finds only members, and in a sorted list every member. |
| Sidecar.ProvesSkip | salamander/src/log/reader.rs:106-116 | Probing the sorted postings by binary search, or comparing partitions, decides exactly whether the segment may be skipped. |
| LogReading.PruningLosesNothing | salamander/src/log/mod.rs:415-437 | Selecting from the planned segments gives the plain filter of all readable events, for every layout and window at or above the floor. |
| Sidecar.BuildSidecar | salamander/src/log/reader.rs:720-837 | The walk over a segment's bytes builds postings, time range, system count and seek points that are sound for its frames. On any other bytes it succeeds only if they are frames throughout with events counting up from the base, and then it sums up exactly those frames. |
| Sidecar.SkipIsSound | salamander/src/log/reader.rs:441-455 | A segment whose sidecar lets the reader skip it holds no record the filter passes, whether or not its frames continue each other. |
| Sidecar.SeekPointBefore | salamander/src/log/index.rs:72-78 | The binary search finds the greatest seek point at or below a position, if there is one. |
| SidecarFormat.SidecarRoundTrip | salamander/src/log/index.rs:87-188 | Every sidecar the engine writes decodes to itself. |
| SidecarFormat.AcceptedIsWritten | salamander/src/log/index.rs:122-188 | What the decoder accepts is in order and in range and, but for two reserved bytes, is the encoding of the sidecar it decodes to. |
| SidecarFormat.DamagedSidecarIsRefused | salamander/src/log/index.rs:122-188 | Change any one byte of an accepted sidecar file and it is refused. |
| SidecarFormat.Decode | salamander/src/log/index.rs:122-188 | The loop-based strict decoder computes the decoding function of the round trip on every input. |
| SidecarFormat.Encode | salamander/src/log/index.rs:87-117 | The loop-based encoder writes the bytes of the round trip. |
| StreamingReader.LogReader.Next | salamander/src/log/reader.rs:457-709 | Each call yields the first pending record and leaves the rest; the continuation never falls, stands behind the yielded record, and reaches the window's end when nothing is left. On segments that hold anything: what was yielded is the selection of the frames really read, a segment left behind was whole or skipped on its sidecar's word, and an error means that a segment is damaged. |
| StreamingReader.LogReader.EnterNextSegment | salamander/src/log/reader.rs:403-439 | Skipping a segment or seeking into it loses no pending record. |
| StreamingReader.Drain | salamander/src/log/reader.rs:693-717 | Pulling until the end yields everything that was pending, in order; on segments that hold anything, the selection of the frames read, or an error. |
| ReadEvidence.StuckMeansDamaged | salamander/src/log/reader.rs:483-631 | Every error of the reader is deserved: where it gives up, no sequence of frames makes up the segment from where it was entered. |
| ReadEvidence.WholeGoesOn | salamander/src/log/reader.rs:483-631 | Wherever the reader is in a whole segment, the next frame is there, decodes and continues the others, or the segment ends well. |
| Damage.ReadSegments | salamander/src/log/mod.rs:364-370 | A full read of any bytes with any sidecars: without an error it yields the selection of the frames passed, with each segment left behind whole or skipped; with one, a segment is damaged. |
| Damage.SilenceMeansWhole | salamander/src/log/reader.rs:483-528 | A read without an error, a limit or an event past its window has read every segment without a sidecar through: its bytes are exactly frames that continue each other up to the recorded end. |
| Damage.SilenceMeansEverything | salamander/src/log/reader.rs:457-709 | Without sidecars such a read yields exactly the selection of the frames that make up the segments. |
| Damage.WholeIsUnits | salamander/src/log/reader.rs:530-615 | With batch digests on, a closed segment read through is an image of valid units, each batch under its digest, with at most the beginning of one more batch. |
| Continuity.AcceptedIsUnits | salamander/src/log/reader.rs:530-615 | The continuity machine with digests accepts nothing but whole valid units and the members of one open batch, from any base. |
| Damage.ChangedByteIsDamage | salamander/src/log/reader.rs:483-528 | Change any one byte of any frame of a segment, length fields apart, and the segment is damaged. |
| Damage.ChangedByteIsNoticed | salamander/src/log/reader.rs:483-528 | So no full read over segments one of which was changed like that comes back without an error. |
| LogReading.PlanReader | salamander/src/log/mod.rs:387-440 | READER REFINEMENT: what the planned reader will yield is the plain filter of the readable events by window, selector, scopes, time and count, whatever the layout and whichever sidecars exist. |
| LogReading.PlanIsIntact | salamander/src/log/mod.rs:387-440 | The segments planned from any reachable log meet what the reader's refinement needs. |
| LogReading.ReadAll | salamander/src/log/mod.rs:364-370 | A drained read returns exactly the filtered events and ends at or behind the window. |
| LogReading.ResumeSplits | salamander/src/log/reader.rs:183-190 | A read cut at any position and resumed there has neither gap nor duplicate. |
| LogReading.ReclaimKeepsAnswers | salamander/src/log/mod.rs:271-293 | For every read at or above the floor, reclaim changes neither the planned selection nor the answer, whichever removals fail. |
| Branches.VisibleIsInScopes | salamander/src/branch.rs:226-249 | The flattened scopes admit exactly the records visible on the path under the cascaded caps. |
| Branches.BelowDivergence | salamander/src/branch.rs:226-249 | Below the divergent tail's minimum a path shows exactly what its shared prefix shows, also when a fork lies below its parent's fork. |
| Branches.TimelinesAgreeBelowDivergence | salamander/src/branch.rs:297-318 | Below the divergence both timelines and the common ancestor's see the same records. |
| Branches.DivergenceIsMaximal | salamander/src/branch.rs:297-318 | If the divergence lies below both ends, some record there, allowed by the fork rule, is visible to exactly one side. |
| BranchCatalogs.DepthIsLineage | salamander/src/branch.rs:169-185 | For a new branch the bounded walk accepts exactly the parents whose lineage is shorter than the limit. |
| BranchCatalogs.InsertKeepsValid | salamander/src/branch.rs:126-146 | An accepted fork keeps every lineage finite, rooted at the default branch and within the depth limit. |
| BranchCatalogs.ArchiveKeepsValid | salamander/src/branch.rs:148-167 | Archiving keeps the catalog well-formed. |
| BranchCatalogs.AncestryIsPath | salamander/src/branch.rs:195-213 | In a well-formed catalog every ancestry is a root-first path of catalog nodes, its parent's ancestry plus itself. |
| BranchCatalogs.PathsAreTrees | salamander/src/branch.rs:256-271 | Any two ancestries share whole nodes up to where they part and never meet again. |
| BranchCatalogs.BranchCatalog.Insert | salamander/src/branch.rs:126-146 | Adds the branch under ID and name, or refuses with the right error and changes nothing. |
| BranchCatalogs.BranchCatalog.Archive | salamander/src/branch.rs:148-167 | Changes only the status of a known, non-default branch, or refuses and changes nothing. |
| BranchCatalogs.BranchCatalog.ValidateDepth | salamander/src/branch.rs:169-185 | The loop computes the depth verdict. |
| BranchCatalogs.BranchCatalog.AncestryOf | salamander/src/branch.rs:195-213 | The loop computes the ancestry, including its errors. |
| BranchCatalogs.CascadeCaps | salamander/src/branch.rs:226-249 | The running minimum from the newest node up gives every node the least fork position below it. |
| BranchCatalogs.BranchCatalog.Divergence | salamander/src/branch.rs:256-271 | Answers the divergence of two known branches of any well-formed catalog and refuses unknown ones. |
| BranchCatalogs.BranchCatalog.Rebuild | salamander/src/branch.rs:87-124 | Replaying the branch frames computes the catalog they describe, or its first error. |
| Forks.ForkAnswers | salamander/src/db.rs:1189-1246 | An accepted fork answers a new active branch under the requested ID and name whose parent and fork position are the requested ones, adds it and changes no other branch or record. |
| Forks.ForkReplaysParent | salamander/src/branch.rs:226-249 | In every database, up to its fork position a branch replays exactly what its parent replays, for every window, selector and time range. |
| Forks.ForkIsParentThenOwn | salamander/src/branch.rs:226-249 | Read past its fork, a branch shows its parent's timeline up to the fork and behind it its own records, none of any ancestor's. |
| Forks.ForkInherits | salamander/src/db.rs:1189-1246 | Right after an accepted fork and in every later state, the new branch replays below its fork position what its parent replayed when it was forked, and from there on only its own records. |
| Forks.FreshForkShowsParent | salamander/src/db.rs:1189-1246 | A new fork read to the head shows its parent's records below the fork position. |
| Forks.HistoryStays | salamander/src/branch.rs:226-249 | Below an old head every later replay of a branch is the old one, whatever happened since. |
| Forks.ArchiveAnswers | salamander/src/db.rs:1250-1291 | Archiving succeeds for exactly the known branches but the default one, marks that branch archived and touches nothing else. |
| Forks.ArchivedIsFrozen | salamander/src/db.rs:826-850 | No run of the database adds a record to an archived branch or revives it. |
| Forks.ArchivedTimelineStays | salamander/src/branch.rs:226-249 | Every replay of an archived fork, however far it reaches, answers the same after any run. |
| Streams.RebuildOfBatch | salamander/src/stream.rs:249-319 | Replaying a fitting batch record by record never fails and arrives where one update per batch arrives. |
| Streams.KeylessAppendAgrees | salamander/src/stream.rs:356-384 | After a batch without its own key, live and rebuilt catalogs agree exactly if none of its events carries both reserved request entries. |
| Streams.KeyedAppendAgrees | salamander/src/stream.rs:356-384 | A batch stamped with its request's key and digest keeps them in agreement. |
| Streams.ReservedKeysAreNotOwn | salamander/src/stream.rs:404-416 | Stamping reserved metadata does not touch what the fingerprint covers. |
| Streams.StreamCatalog.Rebuild | salamander/src/stream.rs:249-319 | The record loop computes the rebuilt catalog or its first error. |
| Streams.StreamCatalog.RecordBatch | salamander/src/stream.rs:356-384 | Updates the four maps as one batch update and touches nothing else. |
| AppendLaws.WriteKeeps | salamander/src/db.rs:826-1013 | An accepted append keeps positions, revisions, batches, event index, receipts, idempotency keys and fork rules. |
| AppendLaws.NewRecordAt | salamander/src/db.rs:880-934 | The stored form of each event: position, revision, index, stamped name and request, its own type, version, body and metadata, and a fingerprint of its own content only. |
| AppendLaws.BoundariesStay | salamander/src/db.rs:1293-1311 | Appending never turns a batch boundary into an inner position, and the new head is a boundary. |
| AppendSafety.BoundaryCheckIsExact | salamander/src/db.rs:1293-1311 | Comparing the two neighbouring records accepts exactly the positions that are not inside a batch. |
| AppendSafety.BoundaryStaysAccepted | salamander/src/db.rs:1293-1311 | A fork position accepted once is accepted in every later state. |
| AppendSafety.StepKeeps | salamander/src/db.rs:826-1340 | Every append, commit, fork and archive keeps the database invariant; batches, receipts, event IDs and keys only ever gain entries. |
| AppendSafety.ReachableIsInv | salamander/src/db.rs:826-1340 | The invariant holds in every reachable database, and every idempotency entry repeats its batch's receipt. |
| AppendSafety.PositionsAndRevisions | salamander/src/db.rs:857-925 | A record's position is its index in the log and its revision the number of earlier records of its branch and stream. |
| AppendSafety.StreamsKeepTheirId | salamander/src/db.rs:868-873 | Records of one branch and stream name carry one stream ID. |
| AppendSafety.BatchesAreContiguous | salamander/src/db.rs:917-925 | Records of one batch ID are neighbours with indexes counting from zero; two batches never share an ID. |
| AppendSafety.EventIdsBelongToOneBatch | salamander/src/db.rs:936-946 | Two records with one event ID lie in one batch and have one fingerprint. |
| AppendSafety.ReceiptsLocate | salamander/src/db.rs:1001-1013 | A receipt's position range holds exactly the records of its batch. |
| Expectations.WrittenAsExpected | salamander/src/db.rs:1535-1544 | A request is written only while the log holds exactly the records of its stream that it expects: none, or just those up to the revision it names. |
| Expectations.StaleIsRefused | salamander/src/db.rs:865 | A request that would be written if it expected nothing is written exactly if its stream holds what it expects, and otherwise refused for its revision. |
| Expectations.AtMostOneIsWritten | salamander/src/db.rs:1535-1544 | OPTIMISTIC CONCURRENCY: of two requests on one stream with the same `NoStream` or `Exact` expectation at most one is written in any run. |
| Retries.SyncedAnswers | salamander/src/db.rs:852-1013 | Every append, retries included, is answered with the receipt of a stored batch that says `Synced` only if the whole batch lies below the durable position, and says it whenever it was asked for. |
| Retries.WrittenIsSyncedWhenDue | salamander/src/db.rs:988-996 | A written append is synced, receipt and durable head alike, exactly if the request asks for it or the commit policy is due. |
| Retries.AppendAgreement | salamander/src/db.rs:826-1032 | An accepted append leaves the live catalog equal to a rebuild, up to receipt durability, exactly if it brings no foreign idempotency key; the rebuild never fails. |
| Occurrences.ForeignKeyHappens | salamander/src/facade.rs:2945-2976 | A keyed batch of one database, ingested into a fresh replica, brings such a key, and the replica's live catalog and rebuild disagree. |
| Retries.CleanRunsAgree | salamander/src/db.rs:826-1032 | After any run of such appends, commits, forks and archives the catalog equals the rebuild of the log. |
| Rebuild.SoundRebuilds | salamander/src/db.rs:244-348 | REBUILDING: a log whose every unit fits what came before it rebuilds without an error, and the database it rebuilds to keeps the whole invariant; so does every prefix of it. |
| Rebuild.WriteIsJournaled | salamander/src/db.rs:988-1013 | An accepted append adds one fitting unit to the log, and the live catalog keeps indexing what a rebuild would. |
| Database.BranchesAreRebuilt | salamander/src/branch.rs:87-124 | At any time, replaying the decoded system records of the log never fails and gives the branches in memory; replaying its events gives the streams, event identities and batches in memory. |
| SystemReads.ReadSystems | salamander/src/log/mod.rs:372-382 | Streaming the system records yields those of the log's units, in log order. |
| Database.Salamander.Open | salamander/src/db.rs:170-348 | On whatever a crash left of a live database's log, opening succeeds: the log is the crashed one, the branches are rebuilt from it, the stream catalog is a matching checkpoint's or else rebuilt, and the head counts as durable. The database is valid exactly if nothing was adopted or the checkpoint covered every batch, and settled exactly if the open cut off a torn tail or read back nothing unsynced. |
| Database.CrashLosesOnlyTheTail | salamander/src/db.rs:249-348 | CRASH AND REBUILD: what the crashed log rebuilds to keeps the invariant and holds a leading part of the stored batches, each whole, and every record that was synced. |
| Retries.RetryIsAnsweredAsBefore | salamander/src/db.rs:857-871 | Whatever happened since, a repeated key is answered with the first receipt, or refused for another digest or an archived branch; nothing is written. |
| Retries.RedeliveryIsAnsweredAsBefore | salamander/src/db.rs:948-983 | A request made of events of an earlier batch, whatever it expects and under whatever key, stores nothing: branch, key and expectation are judged first, then it gets that batch's receipt or a batch ID conflict. |
| Retries.KnownEventIsNeverWritten | salamander/src/db.rs:948-983 | No request that names the ID of any stored event, with whatever other events, expectation, key and batch ID, is ever written. |
| Checkpoints.PublishedIndexes | salamander/src/db.rs:988-1031 | Every published checkpoint carries the head after its operation and indexes every batch up to it, except the first of an append's two publications, which misses the batch just written. |
| Checkpoints.AdoptedKeepsInv | salamander/src/db.rs:175-187 | Adopting a checkpoint whose head is the log's keeps the database invariant exactly if it indexes every batch, and then it is the rebuilt index. |
| Checkpoints.ReachingIsComplete | salamander/src/db.rs:175-187 | The test an opener could make: a catalog of leading batches indexes all of them exactly if its receipts reach the head. |
| Checkpoints.FirstPublicationLosesInv | salamander/src/db.rs:988-1031 | From every database, after every syncing append: a database opened from the first publication has lost the invariant, one opened from the second has kept it. |
| Checkpoints.FirstPublicationForgets | salamander/src/db.rs:948-1031 | Opened from the first publication, the database accepts the request it has stored as a new one and gives its events the revisions they already have. |
| Timelines.RecordsRespectForks | salamander/src/branch.rs:297-318 | In every reachable database no record of a branch lies below its fork position. |
| Timelines.ReplayIsSharedThenSuffix | salamander/src/db.rs:1067-1117 | DIFF IDENTITY: each side's full replay is the shared replay followed by its own suffix plan, for every selector and time range. |
| Timelines.NoLargerBoundIsSound | salamander/src/db.rs:1067-1117 | No larger shared bound is sound when the divergence lies below both ends. |
| Timelines.BranchViewsKeepBatchesWhole | salamander/src/branch.rs:226-249 | A branch's timeline up to a batch boundary shows each batch wholly or not at all. |
| Database.Salamander.AppendBatchWithId | salamander/src/db.rs:826-1032 | The whole answer and new state of an append: validation order, retry paths, conflicts, positions, receipt, durability and catalog, tied to one step of the database machine over the real log. A receipt that says `Synced` lies below the durable head, one that was asked for says so. |
| Database.Salamander.StoreEvents | salamander/src/db.rs:880-934 | The loop stamps every event and stops at the first content conflict with the catalog or within the request. |
| Database.Salamander.OriginalReceipt | salamander/src/db.rs:955-972 | The loop finds the one batch that stored every event of a retry, or reports a conflict. |
| Database.Salamander.Commit | salamander/src/db.rs:1325-1340 | The durable head becomes the head; nothing else changes. |
| Database.Salamander.ForkBranch | salamander/src/db.rs:1189-1246 | Checks in order, writes and syncs the frame, then publishes the catalog validated beforehand; a refusal publishes nothing. When it answers with a branch, every branch frame and everything called durable is on disk. |
| Database.Salamander.ArchiveBranch | salamander/src/db.rs:1250-1291 | Archives a known non-default branch once and a repeat answers without writing; when it changed the branch, every branch frame is on disk. |
| Database.Salamander.IsBatchBoundary | salamander/src/db.rs:1293-1311 | Streaming two records through the real reader decides the boundary check. |
| Database.Salamander.Read | salamander/src/db.rs:1123-1157 | Returns a reader whose yield is the branch's replay over the window, or the error for a bad selector, an end beyond the head or an unknown branch. |
| Database.Salamander.Diff | salamander/src/db.rs:1067-1117 | Computes the diff's ancestor and position from the catalog alone, with the source's errors in its order. |
| Database.DurableHeadIsDurable | salamander/src/db.rs:333-348 | Durable positions and branch frames outlive every further run of the log exactly if the database is settled: never while an opened, unsynced log is unconfirmed, always from the next commit on. |
| Database.DurableRecordsSurvive | salamander/src/db.rs:988-1013 | Every record below a settled database's durable head survives any further run with crashes anywhere. |
| Database.SyncedBatchSurvives | salamander/src/db.rs:988-1013 | Every record of a batch whose receipt says `Synced` is still there, in its place, after any further run of a settled database's log. |
| Database.AnsweredBranchesSurvive | salamander/src/db.rs:1189-1291 | After any further run of a settled database's log, crashes anywhere, its branch frames begin with those there were; if nothing newer was written, they rebuild to the branches in memory. |
| Database.CrashKeepsBranches | salamander/src/db.rs:1189-1291 | A crash at any point of a settled database rebuilds to exactly the branches it had answered. |
| Replication.IngestBatch | salamander/src/facade.rs:2912-2980 | A foreign batch is checked event by event and appended under its own ID, or refused with nothing changed; an answer means it is durable. |
| Replication.StoredBatchIsIngestible | salamander/src/facade.rs:2912-2944 | Every stored batch, as the feed hands it out, passes the checks. |
| Replication.OnlyBatchesAreIngested | salamander/src/facade.rs:2912-2944 | What is accepted is one batch as a database would hand it out: neighbours counting from zero under one batch ID, branch and stream name, asked to be synced. |
| Replication.KeyedBatchBringsKey | salamander/src/facade.rs:2945-2976 | A batch stored under an idempotency key is ingested as a keyless request that brings the key along in its metadata. |
| Replication.ReplicaStoresTheSameEvents | salamander/src/facade.rs:2945-2976 | The replica's copy has the same event IDs, batch ID, indexes, branch, stream name and fingerprints. |
| Replication.RedeliveredBatchIsNotStoredAgain | salamander/src/facade.rs:2912-2980 | Ingesting a batch again, at any later time, returns the first receipt or is refused; it is never stored twice. |
| Feed.FinishBatch | salamander/src/facade.rs:2667-2714 | Passes over an unwanted batch, takes a wanted one whole, or reports the page full. |
| Feed.PageIsSelection | salamander/src/facade.rs:2667-2714 | A page holds exactly the selected ones of the batches it took in, in order. |
| Feed.PageWithinLimits | salamander/src/facade.rs:2667-2714 | Limits bind, counted over the batches on the page, unless the page is a single batch, and an empty page always takes one batch in. |
| Feed.PageEndsWhenFull | salamander/src/facade.rs:2667-2714 | A page ends before a batch only if that batch is selected and would take it over a limit. |
| Feed.GroupsOfBatches | salamander/src/facade.rs:2611-2643 | Closing a batch whenever the batch ID changes recovers the stored batches. |
| Feed.NextPage | salamander/src/facade.rs:2596-2665 | The record loop over the real reader computes the page over the durable window and moves the continuation behind what it took in. |
| Feed.OpenFeed | salamander/src/facade.rs:2550-2594 | Refuses page limits outside the allowed range and positions beyond the durable head. |
| Feed.PageOfStored | salamander/src/facade.rs:2596-2665 | Between two batch boundaries a page takes in whole batches, at least one if there is any, ends early only when full, and continues at a boundary. |
| Feed.FeedDeliversEverything | salamander/src/facade.rs:2596-2714 | FEED COMPLETENESS: with any database operations and pages of any size interleaved, the pages so far are exactly the selected batches from the starting boundary to the feed's position, each whole and once. |
| Feed.PageKeepsComplete | salamander/src/facade.rs:2596-2665 | A page with undelivered durable records strictly advances the feed, to a boundary within the durable head. |
| Feed.CaughtUp | salamander/src/facade.rs:2596-2665 | A feed at the durable head has delivered every selected durable batch. |
| Paging.OpenReplay | salamander/src/facade.rs:2368-2395 | Accepts exactly the requests with legal page limits, a known branch and an end within the head. |
| Paging.NextPage | salamander/src/facade.rs:2453-2523 | A page followed by what remains from its continuation is what remained before; it is done exactly at the end, otherwise strictly closer to it and full, and respects the limits unless it is one record. |
| Paging.ReplayAll | salamander/src/facade.rs:2453-2523 | Asking for page after page ends, and the pages together are the visible records of the stream in the window, also when the tail holds only other branches' events. |
| Paging.ResumedIsSuffix | salamander/src/log/reader.rs:628-655 | A filtered read resumed between two of its records yields exactly the rest. |
| Healing.HealKeeps | salamander/src/facade.rs:3613-3737 | Healing one partition keeps every serving partition at the last writes below its cursor, even when it fails half way. |
| Healing.RestoreKeeps | salamander/src/facade.rs:3194-3219 | Adopting a snapshot of the same timeline into a cold partition keeps all partitions on track. |
| Healing.CheckpointIsSnapshot | salamander/src/facade.rs:1414-1431 | A ready partition's checkpoint is a snapshot of the timeline at its cursor. |
| Healing.LazyHealingIsReplay | salamander/src/facade.rs:3613-3737 | If no key is written from two partitions: after any run of growth, heals, checkpoints, restores and restarts, partitions all ready at the head hold the rows of one full replay. |
| Healing.OrderIndependence | salamander/src/facade.rs:3613-3737 | Without that assumption: from cold, healing each partition once gives the full replay's rows in every order exactly if, for each key, every partition's last write carries the payload of the key's last write; repeated heals change nothing. |
| Healing.OwnershipIsExact | salamander/src/facade.rs:3613-3737 | With snapshots, restarts and heals in any order: every run that ends with all partitions at the head leaves the full replay's rows exactly if no key is written from two partitions. |
| Healing.SharedKeyCanVanish | salamander/src/facade.rs:1414-1446 | For every key written from two partitions there is a run, each partition saved while the row is noted under another one, after which all stand at the head and the key is gone. |
| Healing.SomeOrderDiffers | salamander/src/facade.rs:3613-3737 | When last writes differ, healing each partition once, the one with the older write last, leaves its row behind. |
| Healing.LastWritesCanDisagree | salamander/src/facade.rs:3613-3737 | Two streams of two partitions that write one key: healed in one order the row is the replay's, in the other it is not. |
| Projection.DeltaIsPart | salamander/src/facade.rs:3655-3688 | What a heal reads through the database is the partition's part of the branch's timeline from its cursor. |
| Projection.TimelineGrows | salamander/src/branch.rs:226-249 | Whatever happens to the database, a branch's timeline keeps its records and gains only records at or above the old head. |
| Projection.QueryOutlivesGrowth | salamander/src/facade.rs:3613-3737 | Between two rounds the database may do anything: cursors and rows stay on track against the longer timeline. |
| Healing.OwnedKeysAgree | salamander/src/facade.rs:3613-3737 | Keys written from one partition each are one way to make the order irrelevant. |
| Projection.HealPartitions | salamander/src/facade.rs:3613-3737 | The loop over partitions, restores and readers computes the specified heal of each in turn. |
| Projection.HealedServesReplay | salamander/src/facade.rs:3613-3737 | A call after which all partitions stand at the head leaves the rows of one in-order replay of the branch. |
| Projection.ServedAtHeadIsReplay | salamander/src/facade.rs:3749-3784 | A query that demands the head is answered only from the rows of a full replay. |
| Projection.AggregateStatus | salamander/src/facade.rs:3749-3784 | One failed partition fails the projection, one stale one makes it stale; otherwise it stands at its slowest partition and is ready when all are. |
| Projection.JsonIndexRuntime.Apply | salamander/src/facade.rs:1341-1362 | A readable record replaces its key's row and noted stream; any other changes nothing. |
| Projection.JsonIndexRuntime.CheckpointPartition | salamander/src/facade.rs:1414-1431 | The loop keeps exactly the rows whose noted stream routes to the partition. |
| Projection.JsonIndexRuntime.RestorePartition | salamander/src/facade.rs:1433-1446 | Every saved row and stream is laid over the index, nothing else changes. |
| Wakeup.WakeupsAreNeverLost | salamander/src/facade.rs:669-687 | In every interleaving, a waiter asleep while the published head exceeds its continuation, or the engine is closed, has a publisher or closer between its store and its notification. |
| Wakeup.StepKeeps | salamander/src/facade.rs:846-883 | Every single load, store, lock, sleep and notification keeps the protocol's invariant. |
| Wakeup.InitialIsInv | salamander/src/facade.rs:669-687 | The protocol starts in its invariant. |
| Wakeup.EmbraceIsReachable | salamander/src/facade.rs:846-883 | A waiter that skips its wait calls the sequencer with the lock still held; a run reaches the state where the sequencer waits for that lock. |
| Wakeup.EmbraceIsForever | salamander/src/facade.rs:846-883 | From that state neither the waiter nor the sequencer ever moves again. |
| Wakeup.EmbraceIffWaitSkipped | salamander/src/facade.rs:846-883 | Behind its head check a call can run into the embrace exactly if it skipped its wait, so kept the lock, and did not find the engine closed; after a sleep no run embraces it. |
| Wakeup.HeadCheckDecides | salamander/src/facade.rs:865-881 | The guard that decides: whether the head read under the lock exceeds the continuation while the engine is open. |
| Wakeup.CallIsAnsweredUnlessEmbraced | salamander/src/facade.rs:846-883 | A call that is out can still be answered exactly while no waiter, itself or another, is embraced with the sequencer. |
| IndexedViews.IndexedView.Put | salamander/src/view/indexed.rs:129-153 | The row is replaced and indexes and reverse map stay exactly what the indexers derive from the rows. |
| IndexedViews.IndexedView.Delete | salamander/src/view/indexed.rs:155-160 | The row goes and with it every index entry, no bucket is left empty. |
| IndexedViews.IndexedView.Record | salamander/src/view/indexed.rs:119-127 | One event folds one change into the rows, keeps the agreement and moves the cursor. |
| IndexedViews.IndexedView.PruneIndexEntries | salamander/src/view/indexed.rs:164-175 | Takes the key out of exactly the listed buckets and drops those that become empty. |
| IndexedViews.IndexedView.CatchUp | salamander/src/view/mod.rs:65-75 | Catching up from the cursor folds exactly the stored events up to the given position. |
| IndexedViews.FoldSplits | salamander/src/view/indexed.rs:119-127 | Catch-up and live fan-out split anywhere give the rows of one replay. |
| IndexedViews.AgreementIsUnique | salamander/src/view/indexed.rs:119-175 | The rows determine the reverse map and every live bucket. |
| IndexedViews.IndexedView.By | salamander/src/view/indexed.rs:207-215 | A lookup equals the ordered scan of the rows filtered by the indexers of that name. |
| IndexedViews.IndexedView.Prefix | salamander/src/view/indexed.rs:243-250 | Skipping to the prefix and stopping at the first key without it misses no key that has it. |
| ImportIds.ImportIdsNeverCollide | salamander/src/format/mod.rs:251-266 | Within one source, two offsets get one ID exactly if they are equal. |
| ImportIds.SourcesNeverCollide | salamander/src/format/mod.rs:251-266 | One offset gets different IDs in different sources. |
| ImportIds.StirUndone | salamander/src/format/mod.rs:257-264 | Each add-and-rotate step can be undone. |
| ImportIds.DeriveImportId | salamander/src/format/mod.rs:251-266 | The in-place loops over the sixteen bytes compute that ID. |

## Left out

- File-system calls, the lock file, manifest JSON, directory syncing and I/O errors.
- The bytes, version and checksum of the core catalog file: a checkpoint is a catalog with the head it was published at, and a file that does not decode is none.
- RecordWalk.ScanRecords: positions in the scan are unbounded, so a frame whose position lies within a batch of 2^64 is not modelled as overflowing.
- Database.Salamander.Open: retention anchors that can stand in for the replay are not part of it.
- Database.CrashLosesOnlyTheTail: speaks of what the log rebuilds to; what an adopted checkpoint adds or loses is in `Checkpoints`.
- Retention at the database level (plans, anchors, blockers, bootstraps, reopening afterwards): the `Database` object has floor zero; boundary, floor, activation and reclaim are modelled on the log.
- Reads of system frames after a partial cleanup: system reads are modelled for a log nothing was reclaimed from and over its whole length, as their one caller asks.
- Payload codecs (JSON, bincode), clocks as ordering, CRC collisions, and uniqueness of derived stream IDs and fingerprints.
- Single-event appends through the log outside a batch: modelled on the segment only, since the database always appends batches.
- Database.Salamander.AppendBatchWithId: the fan-out to registered views is not part of its contract; `IndexedViews.IndexedView.Record` is the step it takes for each view.
- Feed.NextPage: page sizes are unbounded sums, so the saturation of the byte count near 2^64 is not modelled; stream IDs of a delivered batch are a set instead of a sorted list.
- Feed consumer checkpoints and acknowledgements, and feeds that start inside a batch beyond what the page contract says of them.
- Projection.HealPartitions: covers the key index the engine itself registers, which is not scoped to one stream. A stream-scoped runtime on a forked branch selects the child's own stream ID and would miss inherited events of that stream.
- Healing to a position other than the head, single-partition checkpoints without stream notes, and snapshots that outlive a crash.
- Queries over the key index (get, range, prefix, by): scans of a map whose contents are proved.
- Wakeup.WakeupsAreNeverLost: covers heads that are published; commits that publish nothing, such as a fork's, wake nobody by design. Cancelling a feed appears as a spurious wakeup.
- IndexedViews.IndexedView.By: keys are byte strings in lexicographic order, one of the two key types prefix scans exist for.
- Bindings, web interface, demos, benchmarks, examples, v1 migration plumbing and snapshot file publication.
