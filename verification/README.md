# Verified model of neoseq's graph storage, sync and document core

neoseq keeps every graph as a Loro document that several browser tabs, a server room
and native runtimes edit, merge, store and index. This project models the parts of that
machinery whose correctness is spread over many functions, and proves what they promise
over all inputs, all runs and all interleavings.

The modules follow the program:

- `Records`, `Storage`, `Repository`: the five IndexedDB stores of one graph. `Storage`
  gives each transaction as a function on the stores' value; `Repository.GraphRepository`
  performs the same transactions in place, record by record, and is proved to commit
  exactly those functions.
- `History`, `DurableLog`, `DurableRuns`: the durable log as a protocol of several tabs,
  one of which may hold the writable lease. Each action is one atomic step, so a crash
  can fall between any two. The log and the history generation are history variables.
- `StoreSteps`, `OutboxRuns`: what single transactions and maintenance leave in the stores,
  and what saving, framing and acknowledging do to the outbox over whole runs.
- `SplitReads`, `DurableWitnesses`: opens whose two reads fall into different states, and
  concrete runs at which the protocol falls short.
- `Outbox`, `Normalization`, `OutboxLedger`: framing, re-export and acknowledgement of
  pending updates, the rewrite of old outbox keys, and what is pending over whole runs.
- `Recovery`, `RecoveryPaths`, `QuarantineFacts`, `RepairHistory`, `RecoveryWitnesses`:
  record-by-record recovery, the two fast paths in front of it, what either keeps and sets
  aside, what a repair leaves of the history, and inputs at which it loses track of a
  message or an update.
- `Worker`: a tab's open state, whose methods are proved to take the protocol's steps.
- `CausalValidation`, `CausalRefinement`, `DocumentFacts`, `RecorderFacts`: whole-document
  validation, the recorder of changed units, the proof that checking the units is checking
  the document, and what a valid document and a recorded event are.
- `EventRing`, `Runtime`, `RuntimeRuns`, `RuntimeFacts`: the native single-owner runtime and its events.
- `IndexDelta`, `IndexRefinement`, `IndexFacts`, `IndexWitnesses`: which records the query
  index holds and what they show, advancing it against rebuilding it, and inputs at which
  the two differ. The runtime's index is this one.
- `OutlineInsertion`, `OutlineTree`, `OutlineFacts`, `Splices`, `References`,
  `ReferenceFacts`, `PropertyFields`, `PropertyReplicas`, `PropertyConvergence`,
  `PropertyViews`, `Migration`, `QueryViews`: the algorithms inside the document core.

What is taken from outside, as parameters or hypotheses of the statements: an update
or snapshot is a set of operations with its bytes, and import is union; SHA-256 is
injective; an IndexedDB transaction is atomic (section 2.7 of Indexed Database API 3.0);
only the lease holder appends, and a tab that takes the lease reopens the graph first;
one tab's requests are serialised by its session queue (apps/client/src/core-port/session.ts),
so the several transactions of one worker request are one step unless a statement says
otherwise; Loro's diffs report every changed container, and re-export of operations a
replica holds is exact. Timestamps, locators and replica identities are left abstract.

## What is false of the code

Where a promise turned out not to hold, the code is modelled as it is, a lemma shows it,
and another states exactly when it does hold.

- A checkpoint carries no history generation. A tab that was caught up when another tab
  adopted a server history, and that had already compared its frontier with the metadata,
  overwrites the server's base with its own document. Maintenance on close runs only under
  an exclusive lease (apps/client/src/core-port/session.ts:484-485), so this is a tab that
  lost its lease in between: where tabs elect a holder over a channel, one that does not
  answer a claim within 300 ms is taken for gone but still believes it holds the lease
  (apps/client/src/core-port/lease.ts:122-186). `LateCheckpointLosesServerHistory` is the
  whole run from an empty database, `CaughtUpReaderOverwritesReplacedBase` the general
  step, `StaleCheckpointIsSafeIff` the exact condition, and `CheckpointAboveFrontierIsSafe`
  shows that repeating the comparison inside the transaction would suffice.
- Opening reads checkpoints and updates in separate transactions. Two checkpoints installed
  in between leave a gap (`SecondRotationLeavesGap`); `SplitReadIsCurrentIff` is the exact
  condition, and one checkpoint is always harmless (`OneRotationBetweenIsSafe`).
- Repair does not open the outbox, so a pending entry above the repaired frontier loses
  its update (`RepairStrandsPendingEdit`, `RepairKeepsOutboxReadableIff`), and it deletes
  every later update but quarantines only the records it was given
  (`RepairDropsLaterAppend`, `RepairQuarantinesWhatItDeletesIff`). Exactly when the
  protocol can go on from a repair is `RepairIsFaithfulIff`.
- The recovery fast paths validate only the final document and can keep updates, or stand
  on a generation, that record-by-record recovery would set aside
  (`FastPathKeepsMoreThanReplay`); `FastPathsAgreeIff` is the exact condition.
- An append puts its outbox entry under its digest without looking at an old entry that
  happens to sit there (`AppendDropsOldEntry`, `AppendKeepsPendingIff`).
- The index delta misses a page replaced under its own ID or listed again by its home, a
  page whose root text was replaced, a changed journal date and a tag whose liveness flips
  (`ReplacedPageLeavesStaleTitle`, `RelistedPageLeavesStaleTitle`,
  `ReplacedTextLeavesStaleTitle`, `JournalDateLeavesStaleTitle`,
  `RestoredTagLeavesStaleUnit`); `AdvanceEqualsRebuildIff` is the exact condition, and
  `PresentIndexIsTrueUntilAMiss` carries it over whole runs of the runtime.

## Model

| member | source | states |
|---|---|---|
| `Repository.GraphRepository.OpenGraph` | apps/client/src/persistence.ts:142-179 | an unopened graph gets metadata with sequence one and empty counters; an existing one is untouched |
| `Repository.GraphRepository.AppendUpdate` | apps/client/src/persistence.ts:209-275 | appending commits the update, its outbox entry and the counters together, reuses the sequence of bytes already stored, and changes nothing on error |
| `Repository.GraphRepository.Acknowledge` | apps/client/src/persistence.ts:419-456 | each acknowledged entry goes, with its update once both generations cover it, and the counters shrink by what was removed |
| `Repository.GraphRepository.InstallCheckpoint` | apps/client/src/persistence.ts:565-649 | a checkpoint inside the durable frontier is rotated in, two generations stay, covered and unreferenced updates go, and all sizes are measured again |
| `Repository.GraphRepository.RepairCorruptTail` | apps/client/src/persistence.ts:653-712 | the frontier is published and the suffix quarantined in one transaction that leaves the outbox alone |
| `Repository.GraphRepository.ReplaceHistory` | apps/client/src/persistence.ts:717-798 | the stores hold the server checkpoint and at most one rebased update with its outbox entry, and sequences continue |
| `Repository.GraphRepository.InspectOutbox` | apps/client/src/persistence.ts:364-417 | the oldest entries within the limit are listed in local order with the payload each stands for, or one of them is unreadable; a missing update is reported exactly when one of them references it |
| `Repository.GraphRepository.RewriteOutbox` | apps/client/src/persistence.ts:280-316 | the write transaction rechecks each inspected entry, deletes stale keys first and then puts content keys, on whatever the outbox holds by then |
| `Repository.Measure` | apps/client/src/persistence.ts:636-643 | measuring a store adds up exactly the bytes it holds |
| `Storage.Newest` | apps/client/src/persistence.ts:603-615 | a rotation keeps at most two generations and drops only older ones |
| `Storage.UpdatesAfter` | apps/client/src/persistence.ts:469-484 | the tail is every stored update above a sequence, once, in order |
| `StoreSteps.InstallPublishes` | apps/client/src/persistence.ts:565-649 | a checkpoint is accepted exactly inside the durable frontier and is then the newest generation as it was handed in, with messages, quarantine and sequences untouched |
| `StoreSteps.ReplaceAdoptsServer` | apps/client/src/persistence.ts:717-798 | a replacement leaves the server's checkpoint, epoch and schema, and of local history only what was rebased |
| `StoreSteps.MaintenanceBoundsTheTail` | apps/client/src/graph-worker.ts:584-621 | after maintenance of a clean, caught-up tab fewer than 128 updates and 512 KiB lie above the published frontier, and none when it was forced |
| `StoreSteps.MaintenanceWaits` | apps/client/src/graph-worker.ts:584-604 | below both thresholds, behind the frontier or with an update pending, maintenance that is not forced does nothing |
| `History.EveryGenerationRecovers` | apps/client/src/persistence.ts:603-632 | in stores that are faithful to a log, any retained generation plus the stored updates above it is exactly what was committed |
| `History.AppendKeepsFaithful` | apps/client/src/persistence.ts:209-275 | an append extends the log by exactly its operations and keeps retention, references, uniqueness and accounting |
| `History.AcknowledgeKeepsFaithful` | apps/client/src/persistence.ts:419-456 | an acknowledgement of any ids changes nothing that is committed and keeps every storage fact |
| `History.InstallKeepsFaithful` | apps/client/src/persistence.ts:565-649 | a checkpoint that is exactly the log through its sequence may come from any tab |
| `History.ReplaceStartsFaithful` | apps/client/src/persistence.ts:717-798 | after a replacement the stores are faithful to the new history |
| `DurableLog.StepKeepsInv` | apps/client/src/graph-worker.ts:505-621 | every enabled action of every tab, from open to replace, keeps the stores faithful and every tab at a prefix of the log |
| `DurableLog.RecoveredIsCurrent` | apps/client/src/graph-worker.ts:442-485 | opening a graph in such a state yields the whole committed document and its frontier |
| `DurableRuns.RunKeepsInv` | apps/client/src/graph-worker.ts:505-621 | the invariant holds in every state of every run |
| `DurableRuns.NoDurableEditLost` | apps/client/src/persistence.ts:565-649 | over every interleaving, either retained generation with its tail is exactly the committed operations, so both rebuild the same document |
| `DurableRuns.SavedEditIsRecoverable` | apps/client/src/graph-worker.ts:557-582 | an edit once saved is recovered from either generation in every later state of the same history |
| `OutboxRuns.CommandLeavesItPending` | apps/client/src/graph-worker.ts:505-555 | a command leaves exactly its update pending and touches no store |
| `OutboxRuns.SavedEditIsStored` | apps/client/src/graph-worker.ts:557-582 | saving makes the stores hold the pending update byte for byte, and the tab lets go of it unless the reply was lost |
| `OutboxRuns.SavedEditIsQueued` | apps/client/src/graph-worker.ts:560-569 | the transaction that saves a synced tab's edit queues it with a reference to its stored bytes, beside what was queued before; any other save leaves the outbox alone |
| `OutboxRuns.ImportedIsNotQueued` | apps/client/src/graph-worker.ts:912-930 | an update from the server is never queued for it |
| `OutboxRuns.SavedEditWaitsForItsAck` | apps/client/src/persistence.ts:228-259 | over every run a synced tab's saved edit is in the outbox with its bytes in every later state until an Ack of bytes that hold all its operations |
| `OutboxRuns.SyncedTabStaysSynced` | apps/client/src/graph-worker.ts:824-826 | once sync is configured a tab queues what it saves for as long as it stays open |
| `OutboxRuns.OpenedTabIsCurrent` | apps/client/src/graph-worker.ts:442-485 | a tab that opens shows the whole committed document with nothing pending, and one that takes the lease holds it |
| `OutboxRuns.ServerHistoryIsAdoptedOnce` | apps/client/src/graph-worker.ts:932-950 | over every run local history is given up for a server's at most once |
| `DurableRuns.StorageIsExact` | apps/client/src/persistence.ts:603-632 | stored updates are exactly those above the older generation plus those an entry references, every reference resolves to its key, and all counters equal what the stores hold |
| `DurableRuns.ClampsNeverFire` | apps/client/src/persistence.ts:436-453 | the clamps at zero in an acknowledgement subtract exactly what was removed |
| `DurableRuns.AckRemovesWhatItContains` | apps/client/src/graph-worker.ts:904-910 | an Ack removes only entries the acknowledged bytes contain, so stale Acks and later entries are safe |
| `DurableRuns.EntryLeavesOnlyWhenDelivered` | apps/client/src/graph-worker.ts:863-910 | over every run an entry leaves the outbox only on an Ack of bytes that hold all its operations |
| `DurableRuns.RoundsDrain` | apps/client/src/graph-worker.ts:863-910 | on faithful stores, frame and Ack rounds without new edits shorten the outbox every time until it is empty |
| `DurableRuns.RunDrains` | apps/client/src/graph-worker.ts:863-910 | in every run a tab that alternates frames with the Acks of their messages shortens the outbox in each round, so there are at most as many rounds as entries |
| `DurableRuns.FrameIsEnabled` | apps/client/src/graph-worker.ts:863-891 | while an entry waits in a reachable state, any open tab can make the next frame |
| `OutboxRuns.PendingIsInLocalOrder` | apps/client/src/persistence.ts:364-370 | the pending payloads are those of the referenced sequences, each once, in increasing order |
| `OutboxRuns.FrameCoversTheOldest` | apps/client/src/graph-worker.ts:863-891 | in every reachable state an entry a frame covers references an earlier update than any entry it leaves out |
| `OutboxRuns.AckRetiresExactly` | apps/client/src/graph-worker.ts:904-910 | an Ack of the frame in flight retires exactly what it covers, any other exactly the entry it names, and only the acknowledged frame is forgotten |
| `DurableRuns.StaleCheckpointIsSafeIff` | apps/client/src/persistence.ts:585-592 | a checkpoint from a tab of an older history keeps the invariant if and only if the frontier check refuses it or its document is the one it overwrites |
| `DurableRuns.CheckpointAboveFrontierIsSafe` | apps/client/src/graph-worker.ts:602-604 | a checkpoint whose sequence is above the published frontier at install time is safe from any tab |
| `DurableRuns.CaughtUpReaderOverwritesReplacedBase` | apps/client/src/graph-worker.ts:584-621 | a caught-up tab that decided to compact before another tab's replacement destroys the new base unless the documents are equal |
| `DurableWitnesses.LateCheckpointLosesServerHistory` | apps/client/src/graph-worker.ts:584-621 | a run from an empty database, of steps the code allows, after which the checkpoint of a tab that lost its lease makes a later open rebuild its old document instead of the committed server history |
| `SplitReads.SplitReadIsCurrentIff` | apps/client/src/graph-worker.ts:290-344 | an open whose two reads fall into different states of one history never reads an uncommitted operation, and reads all committed ones if and only if whatever was pruned in between is also carried by what it read |
| `SplitReads.OneRotationBetweenIsSafe` | apps/client/src/persistence.ts:603-632 | with at most one checkpoint installed between the two reads, whatever else happens, an open that starts from the newest generation reads exactly the committed document |
| `DurableWitnesses.SecondRotationLeavesGap` | apps/client/src/graph-worker.ts:290-344 | a run in which two checkpoints between the two reads make an open miss a committed edit |
| `Outbox.SelectRecords` | apps/client/src/graph-worker.ts:866-874 | a frame takes the longest prefix within the byte limit, and always the first record |
| `Outbox.CollectSpans` | crates/graph-core/src/core.rs:1163-1177 | one update's spans cover exactly its operations, or one of them is no longer held |
| `Outbox.MergeUpdates` | crates/graph-core/src/core.rs:1155-1179 | re-export succeeds exactly when every operation is held, and then exports exactly the operations of the given updates |
| `Outbox.NextFrame` | apps/client/src/graph-worker.ts:863-891 | a frame covers the longest prefix within the limit when it can be re-exported and the first record otherwise, and its bytes hold exactly the operations it covers |
| `Normalization.RewriteNormalizes` | apps/client/src/persistence.ts:280-332 | whatever was permuted or mis-keyed, the rewrite leaves every entry under its content id and keeps exactly the pending payloads |
| `Normalization.RewriteOnlyMoves` | apps/client/src/persistence.ts:280-332 | every entry after a rewrite is an entry from before it, and one that was content-addressed is not touched |
| `Normalization.RewriteIsIdempotent` | apps/client/src/persistence.ts:280-332 | rewriting a normalised outbox with any earlier inspection changes nothing |
| `Normalization.InterleavedOpensConverge` | apps/client/src/persistence.ts:277-332 | with several opens, appends and acks interleaved, once any open has rewritten every entry is content-addressed from then on |
| `Normalization.AppendKeepsPendingIff` | apps/client/src/persistence.ts:228-259 | an append beside old entries keeps every pending payload if and only if its key is free, holds the same payload, or holds one pending elsewhere too |
| `Normalization.AppendDropsOldEntry` | apps/client/src/persistence.ts:228-259 | an old entry under the digest of another edit is lost when that edit is appended |
| `OutboxLedger.StepBooksIff` | apps/client/src/persistence.ts:209-332 | every inspection, rewrite, append and ack changes the pending payloads by exactly what it appends or delivers, if and only if no append overwrites the last entry of another payload |
| `OutboxLedger.LedgerBalances` | apps/client/src/persistence.ts:209-456 | over every run without such an append, what is pending is what was pending at the start plus what was appended less what was delivered |
| `OutboxLedger.RewrittenLedgerBalances` | apps/client/src/persistence.ts:277-332 | once any open has rewritten the outbox the ledger balances in every later state, unconditionally |
| `OutboxLedger.WellKeyedDelivers` | apps/client/src/persistence.ts:419-456 | in a content-addressed outbox an ack delivers exactly the payloads it names |
| `Recovery.ReplayTail` | crates/graph-core/src/persistence.rs:225-260 | replay keeps the longest good prefix and sets aside exactly the rest, each with its reason |
| `Recovery.SelectBase` | crates/graph-core/src/persistence.rs:176-215 | the newest usable generation is selected and every newer one is quarantined with its reason |
| `Recovery.RecoverGraph` | crates/graph-core/src/persistence.rs:161-282 | recovery is the record-by-record definition, from a checkpoint or from nothing, and fails on an unopened graph or an unsupported schema with the stores untouched, or with every generation in quarantine and nothing else changed when none is usable |
| `QuarantineFacts.ReplayStopsAtTheFirstBadRecord` | crates/graph-core/src/persistence.rs:215-260 | recovery returns the base with exactly the updates up to its frontier, each of which could follow those before it, and stops only where the next could not |
| `QuarantineFacts.BaseIsTheNewestGood` | crates/graph-core/src/persistence.rs:176-215 | it stands on the newest generation that is supported, intact, decodable and valid |
| `QuarantineFacts.RecoverySetsAsideWhatItDrops` | crates/graph-core/src/persistence.rs:176-275 | every update it takes away and every newer generation it passes over is in quarantine with its checksum, its bytes and the reason it went, and nothing else is |
| `QuarantineFacts.FirstRecoverySetsAsideWhatItDrops` | crates/graph-core/src/persistence.rs:208-275 | the same for a graph that never had a checkpoint |
| `QuarantineFacts.FailureSetsAsideEveryGeneration` | crates/graph-core/src/persistence.rs:176-210 | when no generation is usable each is in quarantine as it was, and no update is touched |
| `RecoveryPaths.StageTail` | apps/client/src/graph-worker.ts:360-376 | the fast path succeeds exactly when every record is sound, imports in order and ends in a valid document |
| `RecoveryPaths.RecoverIntact` | apps/client/src/graph-worker.ts:442-485 | the first fast path applies exactly when the newest generation decodes and its whole tail stages |
| `RecoveryPaths.Recover` | apps/client/src/graph-worker.ts:284-433 | the worker's recovery returns one of the three paths' documents and leaves exactly their stores; when no generation is usable each is in quarantine and nothing else changed |
| `QuarantineFacts.WorkerSetsAsideWhatItDrops` | apps/client/src/graph-worker.ts:305-433 | the worker's recovery sets aside exactly what it drops, as it was and with the reason, on whichever path |
| `QuarantineFacts.WorkerBaseIsSound` | apps/client/src/graph-worker.ts:284-340 | it stands on the newest usable generation, or on the newest one of all where that is intact with its whole tail |
| `QuarantineFacts.WorkerRecoversAValidDocument` | apps/client/src/graph-worker.ts:360-485 | every document it returns passed validation and is its base with the stored updates up to the frontier |
| `RecoveryPaths.FastPathsAgreeIff` | apps/client/src/graph-worker.ts:284-485 | the fast paths return the document, frontier and stores of record-by-record recovery if and only if the newest generation, where intact, is valid by itself and every prefix of a staged tail is valid |
| `RecoveryPaths.DisagreementShows` | apps/client/src/graph-worker.ts:284-485 | where they disagree, replay stops at an earlier frontier or has quarantined the generation the fast path stands on |
| `RecoveryPaths.StagedAgreesIff` | apps/client/src/graph-worker.ts:360-376 | a staged tail reaches the replay's frontier if and only if every prefix is valid |
| `RecoveryPaths.FastPathKeepsMoreThanReplay` | apps/client/src/graph-worker.ts:360-376 | a concrete tail that stages although replay keeps none of it |
| `RecoveryPaths.QuarantineIsExactlyTheSuffix` | apps/client/src/graph-worker.ts:375-413 | the quarantined sequences are exactly the stored ones above the frontier |
| `RecoveryPaths.PublishedSurvivesRotation` | apps/client/src/persistence.ts:689-696 | the generation a repair publishes is never rotated out |
| `RecoveryPaths.RepairPublishesTheFrontier` | apps/client/src/persistence.ts:653-712 | after a repair the frontier is a retained generation of the kept document, nothing above it is stored, and no sequence is given out twice |
| `RecoveryPaths.RecoveryIsIdempotent` | crates/graph-core/src/persistence.rs:161-282 | a second recovery reaches the same document and frontier and quarantines no further update |
| `RecoveryPaths.RepairKeepsOutboxReadableIff` | apps/client/src/persistence.ts:661-667 | the outbox stays readable if and only if no entry references an update above the repaired frontier |
| `RecoveryPaths.RepairQuarantinesWhatItDeletesIff` | apps/client/src/persistence.ts:673-694 | every deleted update is quarantined if and only if every stored update above the frontier was handed in |
| `RecoveryPaths.RepairIsAccounted` | apps/client/src/persistence.ts:697-708 | after a repair the counters equal what the stores hold |
| `RepairHistory.KeptIsTheLog` | crates/graph-core/src/persistence.rs:225-260 | what a recovery keeps of damaged stores is exactly the committed log through its frontier |
| `RepairHistory.RepairIsFaithfulIff` | apps/client/src/persistence.ts:653-712 | the repaired stores are faithful to the log cut at the frontier if and only if every other kept generation and every update below the base is undamaged and not above it, no entry references an update above it, and the rotation passed no unreferenced update |
| `RecoveryWitnesses.RepairStrandsPendingEdit` | apps/client/src/persistence.ts:661-667 | stores in which a damaged record makes the repair take away the update of an undamaged pending edit behind it |
| `RecoveryWitnesses.RepairDropsLaterAppend` | apps/client/src/persistence.ts:673-694 | an update appended after recovery read the log ends up neither stored nor in quarantine |
| `Worker.OpenState.MaybeCompact` | apps/client/src/graph-worker.ts:584-621 | maintenance installs a checkpoint of the whole core exactly at the thresholds, above the frontier and with nothing pending |
| `Worker.OpenState.PersistPending` | apps/client/src/graph-worker.ts:557-582 | the append commits, queued in a synced graph, and is announced in two local events with its sequence, or nothing changes and the update stays pending |
| `Worker.OpenState.Execute` | apps/client/src/graph-worker.ts:505-555 | a command is refused while an update is pending; otherwise its update is pending before it is saved, and an unsaved one stays |
| `Worker.OpenState.SyncImport` | apps/client/src/graph-worker.ts:912-930 | a remote update is durable before the core and frontier move, and is announced in two remote events |
| `Worker.OpenState.SyncNextFrame` | apps/client/src/graph-worker.ts:863-891 | the frame in flight is the protocol's frame over the oldest entries read, the longest prefix that can be re-exported, and honest about what it covers |
| `Worker.OpenState.SyncAck` | apps/client/src/graph-worker.ts:904-910 | an Ack takes the protocol's step and clears only the frame it names |
| `Worker.OpenState.SyncReplace` | apps/client/src/graph-worker.ts:932-974 | history is adopted exactly by a clean replica that was never based on a server and has nothing to send |
| `CausalValidation.CausalChanges.Record` | crates/graph-core/src/document.rs:95-101 | recording a commit's diffs yields the units of all of them, or asks for the whole document |
| `CausalValidation.CausalChanges.Classify` | crates/graph-core/src/document.rs:104-161 | one diff adds exactly its units, or is refused because no unit covers it |
| `RecorderFacts.FullIff` | crates/graph-core/src/document.rs:95-161 | the whole document is asked for exactly when some event has unknown content, another root, anything but additions to a home, or a change inside an outline that is neither a tree event nor below a node |
| `RecorderFacts.UnitsIff` | crates/graph-core/src/document.rs:104-161 | otherwise the units asked for are exactly the records, headers and nodes the events name |
| `DocumentFacts.ValidIff` | crates/graph-core/src/document.rs:163-465 | whole-document validation accepts exactly documents whose records are complete and in one home, whose marked segments name stored documents, and whose reserved characters are all marked |
| `CausalRefinement.IncrementalRefinesFull` | crates/graph-core/src/document.rs:163-209 | for every valid document and every reported update, checking the recorded units accepts if and only if whole-document validation accepts |
| `CausalRefinement.AdmissionIsFullValidation` | crates/graph-core/src/server_graph.rs:96-103 | a room admits all of a sequence of updates if and only if every state passes whole-document validation |
| `CausalRefinement.RemovalChecksWholeDocument` | crates/graph-core/src/document.rs:126-136 | a reported removal always forces whole-document validation |
| `CausalRefinement.RecordedCovers` | crates/graph-core/src/document.rs:95-161 | unless the whole document is asked for, every event left its units in the scope |
| `EventRing.Trim` | crates/graph-core/src/runtime.rs:375-377 | eviction leaves exactly the newest events that fit |
| `EventRing.PushHolds` | crates/graph-core/src/runtime.rs:368-378 | the ring is always the end of everything pushed, numbered consecutively |
| `EventRing.CursorsAreConsecutive` | apps/client/src/graph-worker.ts:1057-1060 | cursors in the ring are consecutive and end below the next one |
| `EventRing.SubscribeIsExact` | crates/graph-core/src/runtime.rs:228-250 | a poll returns exactly the unseen events, or asks for a resync precisely when an unseen event was evicted |
| `EventRing.ExactlyOnce` | apps/client/src/graph-worker.ts:647-659 | a subscriber that follows the returned cursor has received every event once and in order, or was told to resync at the first poll that missed one |
| `Runtime.GraphRuntime.Execute` | crates/graph-core/src/runtime.rs:151-187 | a command's update is retained before the index is touched, and the outcome says whether it is in the log, pending, empty or refused |
| `Runtime.GraphRuntime.ImportRemote` | crates/graph-core/src/runtime.rs:189-201 | an imported update is in the log or pending, with its exact bytes |
| `Runtime.GraphRuntime.RetryPending` | crates/graph-core/src/runtime.rs:268-273 | a retry saves the pending update or leaves it |
| `Runtime.GraphRuntime.Query` | crates/graph-core/src/runtime.rs:215-218 | a query is refused while an update is pending and otherwise answered from a present or rebuilt index |
| `Runtime.GraphRuntime.AdvanceIndex` | crates/graph-core/src/runtime.rs:296-310 | the index becomes the advanced or rebuilt one, or is dropped; never half advanced |
| `Runtime.GraphRuntime.PersistPending` | crates/graph-core/src/runtime.rs:326-366 | a successful append moves the pending bytes to the log and publishes two events; a failed one changes nothing |
| `Runtime.GraphRuntime.Subscribe` | crates/graph-core/src/runtime.rs:228-250 | the batch is the ring's answer for the cursor |
| `RuntimeRuns.CoreIsStartPlusLogPlusPending` | crates/graph-core/src/runtime.rs:151-201 | over every run, with any append and index failures, the core is its start plus the log plus at most one pending update |
| `RuntimeRuns.StepIsFreshIff` | crates/graph-core/src/runtime.rs:296-310 | from an index that is the projection of the core's graph, a step keeps that true or drops the index, unless it applies a delta while some unit outside it shows a change, and then the index is false |
| `RuntimeRuns.PresentIndexIsTrueUntilAMiss` | crates/graph-core/src/runtime.rs:296-310 | over every run, from any rebuild on, a present index is the projection of the core's graph as long as no applied delta misses a unit, and is not after the first that does |
| `RuntimeRuns.CloseLosesNothing` | crates/graph-core/src/runtime.rs:275-283 | in every reachable state closing is refused exactly while an accepted write is not in the log; otherwise the log holds every accepted write in order and, with the start, everything the core holds |
| `RuntimeFacts.CommandIsSavedOrPending` | crates/graph-core/src/runtime.rs:151-187 | a command's update is in the log and announced with its command id, or pending with nothing written or published; a refused command changes nothing |
| `RuntimeFacts.ImportIsSavedOrPending` | crates/graph-core/src/runtime.rs:189-201 | the same for an import, announced as remote |
| `RuntimeFacts.RetrySavesWhatIsPending` | crates/graph-core/src/runtime.rs:268-273 | a retry saves and announces what is pending, or leaves everything as it was |
| `RuntimeFacts.EventsAreTheSaves` | crates/graph-core/src/runtime.rs:326-366 | each save publishes its own event and then its place in the log with its checksum, both with its source |
| `RuntimeFacts.CommitKeepsTheIndex` | crates/graph-core/src/runtime.rs:296-310 | a commit keeps an index unless the projection itself fails, and makes none |
| `RuntimeRuns.AcceptedReachTheLogInOrder` | crates/graph-core/src/runtime.rs:326-366 | every accepted update reaches the log in order with its exact bytes, only the last may be pending, and the ring holds the end of two events per save |
| `RuntimeRuns.NothingMovesWhilePending` | crates/graph-core/src/runtime.rs:285-295 | while an update is pending the only step that changes anything is the retry that saves it |
| `RuntimeRuns.SubscriberSeesEverySaveOnce` | crates/graph-core/src/runtime.rs:228-250 | over any run and any polls, a follower receives every published save event exactly once or is told to resync |
| `IndexDelta.Finish` | crates/graph-core/src/core.rs:511-585 | the change set is a rebuild exactly when some diff forces one, and otherwise names exactly the touched owners |
| `IndexDelta.BuildDelta` | crates/graph-core/src/core.rs:1374-1404 | the delta upserts or removes exactly the named units from the current document |
| `IndexFacts.UnitsAreLiveRecords` | crates/graph-core/src/core.rs:1407-1432 | the index holds exactly the records that are not deleted, a page under its page identity and a named tag under its tag identity |
| `IndexFacts.UnitShowsItsRecord` | crates/graph-core/src/core.rs:3885-3950 | a unit shows its record's name register or root text, its body, a title for each page it references, and those of its tags that are live |
| `IndexFacts.DeltaIsExact` | crates/graph-core/src/core.rs:1374-1404 | after a delta the owners it names have exactly the units a rebuild would give them and every other unit is as it was |
| `IndexFacts.DeletedRecordIsRemoved` | crates/graph-core/src/core.rs:1385-1402 | a record its commit deleted is removed from the index under either identity |
| `IndexFacts.RebuildIff` | crates/graph-core/src/core.rs:511-577 | a commit asks for a rebuild exactly when an event is unknown, a listed record is gone, or an unlisted record's name, kind or title text was written |
| `IndexFacts.NamedIff` | crates/graph-core/src/core.rs:546-585 | otherwise it names exactly the stored records some change lists or happens inside |
| `IndexRefinement.IncrementalKeepsNames` | crates/graph-core/src/core.rs:555-577 | without a rebuild no record was removed, and none that its home did not list again and that kept its root and root text changed its name or kind |
| `IndexRefinement.AdvanceEqualsRebuildIff` | crates/graph-core/src/runtime.rs:381-406 | advancing equals rebuilding if and only if no untouched unit shows a changed title or flipped tag and no record came back as the other kind |
| `IndexRefinement.AdvanceEqualsRebuild` | crates/graph-core/src/core.rs:1374-1432 | with stored records staying, no dangling pages and flipped tags' referrers in the change set, advancing always equals rebuilding |
| `IndexWitnesses.ReplacedPageLeavesStaleTitle` | crates/graph-core/src/core.rs:520-525 | a page replaced under its own ID counts as created, so a referring page keeps its old title |
| `IndexWitnesses.RelistedPageLeavesStaleTitle` | crates/graph-core/src/core.rs:520-525 | so does a kept page that its home lists again while it is renamed |
| `IndexWitnesses.ReplacedTextLeavesStaleTitle` | crates/graph-core/src/core.rs:560-566 | replacing the text container of a page's root changes its title without a rebuild |
| `IndexWitnesses.JournalDateLeavesStaleTitle` | crates/graph-core/src/core.rs:3914-3927 | changing a journal page's date leaves a referring page showing the old one |
| `IndexWitnesses.RestoredTagLeavesStaleUnit` | crates/graph-core/src/core.rs:4203-4224 | restoring a tag leaves pages that reference it showing none |
| `OutlineInsertion.ValidateOutlineItems` | crates/graph-core/src/core.rs:2564-2602 | the check accepts exactly the bounded, atom-free lists that start at depth zero and never skip a depth |
| `OutlineInsertion.PreorderIsTheList` | crates/graph-core/src/core.rs:1663-1700 | the forest a depth list describes, walked in preorder with depths, is the list |
| `OutlineFacts.PreorderIff` | crates/graph-core/src/core.rs:2564-2602 | a list is the preorder walk of the forest it describes if and only if it starts at depth zero and never skips a depth |
| `OutlineTree.LevelIsOpen` | crates/graph-core/src/core.rs:1681-1684 | for an accepted list the level above a nested item is always open, so the skipped-depth error cannot arise |
| `OutlineTree.Outline.InsertOutlineItems` | crates/graph-core/src/core.rs:1620-1707 | new roots stand in one piece at the clamped index or after the replaced block, every item has exactly the children the list gives it before any it already had, and nothing else moves |
| `OutlineFacts.RootsGoWhereAsked` | crates/graph-core/src/core.rs:1655-1678 | without a block to replace, the new roots stand in one piece and in order at the index or at the end, between the siblings as they were |
| `OutlineFacts.RootsFollowTheReplaced` | crates/graph-core/src/core.rs:1640-1678 | a replaced block stays where it is and the further roots follow it at once |
| `OutlineFacts.ParentsAndListsAgree` | crates/graph-core/src/core.rs:1663-1700 | every new block is among the children of the parent it is given |
| `OutlineTree.InsertedTreeIsTheList` | crates/graph-core/src/core.rs:1663-1700 | the inserted tree, walked in preorder, lists the items with their depths, with whatever the replaced block already had below it in one piece, unchanged, after its new descendants |
| `PropertyFields.MergeIsCommutative` | crates/graph-core/src/document.rs:26-32 | merging replicas of one history is commutative |
| `PropertyFields.MergeIsAssociative` | crates/graph-core/src/document.rs:26-32 | merging replicas of one history is associative |
| `PropertyFields.MergeIsIdempotent` | crates/graph-core/src/document.rs:26-32 | merging a replica with itself changes nothing |
| `PropertyFields.MergeStaysWellShaped` | crates/graph-core/src/core.rs:3011-3065 | merging never puts a payload under a shape it does not fit |
| `PropertyFields.WellShapedIsUnmixed` | crates/graph-core/src/core.rs:3011-3065 | a visible field holds one cardinality and one value type |
| `PropertyFields.ConcurrentCreationsPickOne` | crates/graph-core/src/document.rs:26-32 | of two concurrent first creations one whole generation is visible and nothing of the other |
| `PropertyFields.RemovalWinsIff` | crates/graph-core/src/core.rs:3660-3666 | a removal stands against another replica if and only if that replica does not select the key later |
| `PropertyFields.RecreationNeverResurfaces` | crates/graph-core/src/core.rs:3048-3051 | a recreated field shows only its own generation, whatever an older replica still holds |
| `PropertyReplicas.PropertyBag.EnsurePropertyField` | crates/graph-core/src/core.rs:3011-3065 | an existing field is reused only with the same type and cardinality; otherwise a new generation is selected and shaped |
| `PropertyReplicas.PropertyBag.Set` | crates/graph-core/src/core.rs:3067-3082 | a value is written into the field's generation, or nothing changes on a shape error |
| `PropertyViews.SetIsAcceptedIff` | crates/graph-core/src/core.rs:3011-3082 | a set is accepted exactly where the registry allows its shape and a visible field has that shape, and each refusal names what differs |
| `PropertyViews.SetShows` | crates/graph-core/src/core.rs:3067-3082 | after an accepted set, in every reachable state, the field shows the value alone or as one more member, with its shape, and no other field shows a change |
| `PropertyReplicas.PropertyBag.RemovePropertyField` | crates/graph-core/src/core.rs:3660-3666 | removal writes the key's register and leaves the generation |
| `PropertyReplicas.PropertyBag.RemoveRepeatedValue` | crates/graph-core/src/core.rs:3668-3684 | a set member goes only from a set of its type |
| `PropertyViews.RemoveRepeatedShows` | crates/graph-core/src/core.rs:3668-3684 | removing a member takes exactly that value from a set of its type, does nothing elsewhere, and shows under no other key |
| `PropertyReplicas.PropertyBag.ClearPropertyValues` | crates/graph-core/src/core.rs:3638-3658 | clearing deletes exactly the registers of the field that hold a value |
| `PropertyViews.ClearShows` | crates/graph-core/src/core.rs:3638-3658 | clearing leaves the field with its shape and no value, and no other field shows a change |
| `PropertyViews.RemoveFieldShows` | crates/graph-core/src/core.rs:3660-3666 | a removed field is not shown and no other field shows a change |
| `PropertyViews.ReachableIsReady` | crates/graph-core/src/core.rs:3011-3082 | in every reachable state no two keys select one generation and a new generation is unknown, so the statements above hold after every step |
| `PropertyViews.MergeTakesTheLater` | crates/graph-core/src/document.rs:26-32 | of two writes to one register merging keeps that of the later Lamport time, and of the greater peer at one time |
| `PropertyReplicas.RunKeepsInv` | crates/graph-core/src/core.rs:3011-3082 | every run of commands and merges keeps replicas coherent and well shaped |
| `PropertyReplicas.NoMixedShapeEver` | crates/graph-core/src/document.rs:26-32 | in every reachable state no replica shows a field of mixed shape |
| `PropertyReplicas.ReplicasConverge` | crates/graph-core/src/document.rs:26-32 | in every reachable state order, grouping and repetition of merges do not matter |
| `PropertyConvergence.RunKeepsKnowledge` | crates/graph-core/src/document.rs:26-32 | in every reachable state each register of a replica is the latest of the writes the replica has seen, and it shows nothing else |
| `PropertyConvergence.SameWritesSameReplica` | crates/graph-core/src/document.rs:26-32 | in every reachable state two replicas that have seen the same writes, by whatever commands and merges, are equal and show the same fields |
| `PropertyReplicas.RemovalBeatsConcurrentEdits` | crates/graph-core/src/core.rs:3660-3666 | removing a field beats any edit another replica made inside the same generation |
| `PropertyReplicas.RecreatedFieldIsNew` | crates/graph-core/src/core.rs:3048-3065 | a field of either cardinality set where none is visible, removed here or by a merged removal, shows the new value and nothing else |
| `Splices.ContentMappings` | crates/graph-core/src/core.rs:453-509 | exactly the blocks with a known, written content event under a record are told changes, each the changes of all its events in order |
| `Splices.ContentMapping` | crates/graph-core/src/core.rs:482-506 | the emitted changes are those of the delta, appended to what earlier events left |
| `Splices.SplicesAreTheDelta` | crates/graph-core/src/core.rs:482-506 | applied in order, with the inserted strings, the changes give exactly the delta's new text |
| `Splices.EventsCompose` | crates/graph-core/src/core.rs:453-509 | the changes accumulated over several events on one block take its first text to its last |
| `Splices.MappingTakesTextThrough` | crates/graph-core/src/core.rs:453-509 | the range changes a block is told, made one after another at the positions and lengths they say, take its text from before its first event to after its last |
| `Splices.PlaceIff` | crates/graph-core/src/core.rs:463-480 | a change is mapped exactly when it is a known text event under `content`, written where that is asked for, on a path through a record and an outline node, and for the first of each |
| `References.MaterializeBlockContent` | crates/graph-core/src/core.rs:3989-4060 | markdown, spans and inline content are those of the logical text, and every mark without an atom and atom without a mark is reported |
| `ReferenceFacts.PositionsAreTheText` | crates/graph-core/src/core.rs:4000-4050 | each character of a segment is one position: itself, a reference to the marked page, or the replacement character |
| `ReferenceFacts.PositionDisplays` | crates/graph-core/src/core.rs:4016-4050 | position by position the markdown shows the character, or the page's title in double brackets |
| `ReferenceFacts.SpansAreTheReferences` | crates/graph-core/src/core.rs:4029-4038 | the spans are exactly those of the references, each from the start to the end of what it displays |
| `References.NoIssuesIff` | crates/graph-core/src/core.rs:4012-4045 | nothing is reported if and only if every mark covers an atom and every atom is marked |
| `References.ValidateFragmentPageReferences` | crates/graph-core/src/core.rs:2942-2960 | the validator accepts exactly spans in order, apart, inside the text and at their logical index |
| `ReferenceFacts.ValidIndexIsThePosition` | crates/graph-core/src/core.rs:2942-2960 | the index of an accepted span is the number of positions in the content that collapsing the text before it gives |
| `References.MaterializedSpansAreValid` | crates/graph-core/src/core.rs:3989-4060 | materialised spans always pass the validator, each index being the display start less the widths collapsed before it |
| `References.CollapsingRecoversContent` | crates/graph-core/src/core.rs:3989-4060 | collapsing the spans in the markdown recovers the inline content |
| `References.ContentDeterminesText` | crates/graph-core/src/core.rs:3989-4060 | the inline content determines the logical text, and with it markdown and spans |
| `Migration.KeysHaveNoColon` | crates/domain/src/ids.rs:132-159 | a valid property key holds no colon |
| `Migration.CopyDocument` | crates/graph-core/src/archive.rs:177-196 | a query document is copied exactly, or refused for its depth or its containers |
| `Migration.Bag.MigrateBag` | crates/graph-core/src/archive.rs:92-175 | a bag fails exactly when some slot cannot be carried over, and otherwise holds exactly one field per marker with exactly its slots' values, every old slot deleted |
| `Migration.SlotNames` | crates/graph-core/src/archive.rs:92-135 | a slot's name alone says whether it is a marker, a value, a document or a member, and of which key |
| `Migration.CarriedOverIff` | crates/graph-core/src/archive.rs:92-170 | exactly these slots are carried over: a valid marker of its own key, and beside it a plain value of a single scalar, a plain member of a set, or a copyable document |
| `Migration.MigratedFieldsAreTyped` | crates/graph-core/src/archive.rs:92-175 | a migrated field has the type and cardinality its marker named and holds only what these allow |
| `Migration.FieldsAreLeft` | crates/graph-core/src/archive.rs:171-174 | deleting the old slots deletes no new field |
| `Migration.EverySlotIsRecalled` | crates/graph-core/src/archive.rs:92-175 | every payload slot can be read back from its field, and nothing else can |
| `QueryViews.ValidateStructure` | crates/domain/src/property.rs:266-293 | the check accepts exactly supported, bounded, duplicate-free documents with an existing default view |
| `QueryViews.SortViews` | crates/graph-core/src/core.rs:3397-3401 | sorting orders the same views by position, then identity |
| `QueryViews.ProjectQueryDocument` | crates/graph-core/src/core.rs:3332-3455 | for any iteration order the projection succeeds exactly on decodable, valid views under a supported header with a stored default view, publishes the sorted live views within the bound, names overflow and overlong views, and passes the structure check even with every view deleted |
| `QueryViews.PublishedAreStored` | crates/graph-core/src/core.rs:3349-3411 | what is published is what is stored, and every stored live view is published or named as overflow |
| `QueryViews.PublishedInOrder` | crates/graph-core/src/core.rs:3397-3401 | views stand by position and, at one position, by identity |
| `QueryViews.DefaultIsKeptWherePublished` | crates/graph-core/src/core.rs:3430-3441 | a stored default that is published stays the default with nothing reported; any other is reported with the first view in its place |
| `QueryViews.TooLongIsExact` | crates/graph-core/src/core.rs:3419-3423 | the views named as overlong are exactly those whose source exceeds the limit, with its length |
| `QueryViews.ProjectionIgnoresOrder` | crates/graph-core/src/core.rs:3350-3401 | the projection does not depend on map iteration order |
| `QueryViews.NothingIsDropped` | crates/graph-core/src/core.rs:3424-3429 | visible and overflow views together are all live views in order |
| `QueryViews.RemovingAVisibleView` | crates/graph-core/src/core.rs:3402-3429 | removing a visible view promotes exactly the first overflow view, or falls back when none is left |
| `QueryViews.ProjectGraphSettings` | crates/graph-core/src/core.rs:3592-3624 | every default query is projected, the first failure fails the settings even past the limit, and otherwise the first eight are visible and the rest named |

## Left out

- Worker.OpenState.MaybeCompact: the metadata read and the install are one step here; `DurableRuns.CaughtUpReaderOverwritesReplacedBase` treats a replacement between them.
- Worker.OpenState.SyncReplace: its checks and the replacement are one step, since only the lease holder writes and its requests are serialised.
- Worker.OpenState.SyncNextFrame: refuses when any referenced update is missing, where the original notices it among the first 256 entries; no reachable state has such an entry.
- RecoveryPaths.Recover: without the rewrite of a checkpoint stored under an older schema, which installs the recovered document again.
- Runtime.GraphRuntime.FromCore: a capacity of zero is a precondition here and an error of the original.
- IndexDelta.Finish: the summary flag of a change set, which no index reads.
- PropertyReplicas.PropertyBag.EnsurePropertyField: without document-valued properties, whose payload is the query document of `QueryViews`; that a payload has its shape's kind is the proved invariant, not a check at run time.
- PropertyReplicas.PropertyBag.ClearPropertyValues: without the refusal for document-valued properties, and in some order of the members.
- References.MaterializeBlockContent: segments that are not inserts, which reading a text never yields.
- QueryViews.ProjectGraphSettings: takes the stored queries in the order their storage gives and each query's projection as a function; the conflicts derived from it are not modelled.
- DurableRuns.Run: checkpoints a stale tab installs at the frontier of a replaced history, which `StaleCheckpointIsSafeIff` and `DurableWitnesses` treat on their own.
- DurableLog.LoseLease: a tab that lost an elected lease may in the original also save edits until it notices; here it only compacts, frames and acknowledges.
- DurableLog.Open: reads checkpoints and updates at once; `SplitReads` states what two reads give.
- Installing an imported archive as a new graph, local deletion, storage statistics and capability queries.
- Loro itself: tree and text merging, encoding, undo, and that diffs report every change; the needed contracts are hypotheses.
- Field-level checks of document validation (names, property bags, lifecycles, settings): each reads one unit only and is a parameter.
- Command preparation, outline planning and undo stacks.
- SPARQL execution and index internals: the index is a map of units.
- Server rooms beyond admission, authentication, the archive container, the user interface and worker message plumbing.
