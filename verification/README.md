# Replication model

A Dafny model of mariamesh, a multi-primary replication protocol: row changes are captured as
events numbered per origin, nodes exchange replication vectors and stream missing ranges, resolve
conflicts per field by hybrid-logical-clock last-write-wins, advance contiguous cursors,
acknowledge after commit, seed new nodes from snapshots, and collect what every active receiver has
acknowledged. `dafny verify dfyconfig.toml` checks everything.

## How it is built

Each SQL table is a field of class `Store.Database`; every method is one statement or one
transaction, and its contract fixes the whole new state through the value type `Db` that
`Database.View()` returns. Objects whose methods update fields are classes (`Hlc.Clock`,
`Apply.Applier`, `Capture.CapturedTable`, `SeedTarget.Target`, `Session.Sync`,
`Membership.Manager`, `Broadcast.Broadcaster`); loops of the Go code are loops here, proved against
functions or relations. The laws are lemmas about those functions, over whole runs.

| module | subject |
|---|---|
| Hlc, Conflict, Changelog | clocks, version order, origins, vectors and ranges |
| Store, Progress | tables and statements, contiguous cursors |
| Resolver, RowHistory | one row under any delivery sequence |
| Apply, Convergence, ReplicaHistory | batches, and replicas that receive them |
| Ranges, Gc, Collection | range service, watermarks, bounded deletion |
| Capture, LocalWrites, Stamps, Replay | triggers, what becomes of a local write, when it is stamped past everything known, replaying a captured log |
| Seed, SeedTarget, Snapshot, Seeding | snapshot source, target, and seeding end to end |
| Replica, Mesh, Reflection | cursors of one node, safety of collection across nodes, what collected events left behind |
| SeededWrites, SeedGap | what a seeded joiner holds of its source's writes, and what is kept for it until it is on record |
| Session, SessionPair, SessionLiveness, SessionOutcome, SessionSuccess, SessionRecords | one session half, two halves over FIFO streams, why and when they succeed, what they leave on record |
| Membership, Broadcast | node status and epochs, the gossip cursor |
| Counterexamples | concrete inputs for the findings below |

Statements that scan a table visit rows in an arbitrary order, which covers every order the server
may pick; where the code asks for an order, the server's collation is a parameter. Wall-clock readings, stored payload sizes, the rows a bounded DELETE picks and the batch
boundaries of a range answer are parameters or free choices.

## Findings

Where the code and its comments part, the model follows the code; an exact condition and a concrete
input (module Counterexamples) are given for each.

- Deletes are ordered against tombstones only, so delivery order matters exactly when a row was
  deleted and its newest event is not a delete (`OrderIndependentIff`, `DeleteRace`), although
  apply.go:90-92 calls any order safe.
- A write that resurrects a deleted row restores only the columns it carries; the other columns keep
  old versions beside default values (`ColumnHoldsItsWriteIff`, `ResurrectionForgetsColumn`).
- Triggers write neither field versions nor tombstones, so the node that makes a write and a replica
  that receives it can end with different rows. `LocalWriteSurvivesIff` gives the exact condition for
  all three statements: an update can be overwritten by an older event (`LocalUpdateIsOverwritten`), a
  deleted row can come back (`LocalDeleteIsUndone`), and an insert under a newer tombstone shows at
  its own node alone (`LocalInsertIsUnseen`).
- For the same reason a snapshot carries the source's own writes as bare values without versions: a
  node seeded from the writer agrees with a replica of the write exactly when the write survives at
  the writer (`SeededJoinerAgreesIff`, `SeededJoinerIsOverwritten`). It shows the value at all exactly
  when the writer had not lost it when the snapshot was taken, although the snapshot's vector accounts
  for the write either way (`SeededValueIff`, `SeededJoinerMissesWrite`).
- `SaveHLC` drops the logical part when physical time advances: a capture may be stamped before what
  the node observed (`CaptureAfterSaveIff`, `StampAfterSaveIsEarlier`), and the clock persisted by a
  seed may lie behind the seeded writes (`SeedClockPersistedIff`, `SeedPersistsEarlierClock`). Over
  runs, `WriteIsPastIff` says when the next write is stamped past all its node holds.
- Pins are merged per origin, so two seed sessions protect both joiners only under a condition
  (`MergedPinsProtectIff`, `SecondJoinerUnprotected`); one session alone is always protected.
- Re-adding a retired node ID leaves it RETIRED, refuses the new incarnation and admits the old one
  (`AddJoinsIff`, `AddSwapsRefusal`, `RebuiltNodeStaysRetired`), against membership.go:117-120.
- A heartbeat with a newer ACTIVE record of another incarnation takes over an ACTIVE row: that
  incarnation then counts for collection without an Activate, and the old one no longer does
  (`ActiveIncarnationIff`, `GossipSwapsIncarnation`), against membership.go:263-264.
- One event of an origin recorded RETIRED fails its whole batch and session (`BatchCommitsIff`,
  `SucceedsIff`), and a range answer forwards such rows (`RetiredRowIsForwarded`); nodes.go:104-105
  asks for both to be dropped.
- The persisted mark goes back when a cycle finishes with a lower watermark, and requests for
  collected history are then answered with a gap instead of being refused (`MarkLoweredIff`,
  `MarkGoesBack`), against store.go:228-233.
- Nothing protects a joiner between the end of its seed session and its first recorded
  acknowledgement. What it needs is kept exactly when every cycle in between spares it
  (`SeedToRecordIff`, `JoinerIsTruncated`).
- A refused addition leaves the cached epoch ahead of the persisted one, and a heartbeat at that
  epoch is then not persisted (`AdoptionLagsIff`). Collection pauses only if the heartbeat also lifts
  a node row above the persisted epoch; `HeartbeatPausesIff` says when, `LoneHeartbeatPausesIff` for a
  sender alone, and `RefusedAdditionPausesCollection` shows one.
- An origin's history may go only when every ACTIVE receiver on record has acknowledged some of it
  (`WatermarkPositiveIff`). A node never acknowledges to itself, so with itself an ACTIVE receiver it
  never collects its own log, unless a batch or a seed brings it its own events (`OwnLogNeverShrinks`,
  `AcknowledgedOwnRowStays`).
- A row with an empty id is captured, and its event then fails every batch it is in
  (`EmptyIdIsLogged`, `EmptyIdStopsReplication`): a replica's cursor passes it exactly through a seed
  load that covers it (`RefusedEventIsPassedIff`).
- `sendRanges` ends with an empty Complete batch right after a Complete one exactly when the last
  range that holds any row reaches its end and the last range does not (`RedundantEndIff`,
  `TrailingBatchAfterComplete`); sync.go:202-204 rules such a batch out. The session is correct anyway
  (`DoneMeansAllApplied`).

## Model

| member | source | states |
|---|---|---|
| Hlc.Compare | internal/clock/hlc.go:25-39 | three-way result agrees with the strict lexicographic order, 0 exactly on equality |
| Hlc.Max | internal/clock/hlc.go:46-51 | one of the two, behind neither |
| Hlc.Clock.Restore | internal/clock/hlc.go:80-86 | adopts the later of the two states, never goes back |
| Hlc.Clock.Tick | internal/clock/hlc.go:89-99 | returns the earliest stamp after the old state whose physical part has reached the wall |
| Hlc.Clock.Update | internal/clock/hlc.go:103-121 | returns the earliest stamp after both the old state and the remote stamp that has reached the wall |
| Hlc.HappensBeforeOrdersStamps | internal/clock/hlc.go:88-121 | over any distributed run with arbitrary wall readings, happens-before implies a strictly smaller stamp |
| Hlc.StampBounds | internal/clock/hlc.go:88-121 | no stamp's physical part exceeds the largest wall reading so far anywhere, and its logical part never exceeds the number of steps |
| Hlc.ClockBounds | internal/clock/hlc.go:88-121 | the same bounds for every process clock |
| Conflict.WinsIsTotalOrder | internal/conflict/conflict.go:20-41 | Wins is a strict total order, so all nodes pick the same winner |
| Conflict.TextFlip | internal/conflict/conflict.go:28-31 | text comparison is antisymmetric and 0 only on equal texts |
| Conflict.CompareTextIff | internal/conflict/conflict.go:28-31 | the smaller text is the one that ends first or has the smaller character where they first differ |
| Conflict.WinsIff | internal/conflict/conflict.go:20-41 | a later time wins, then the greater node ID, then the later sequence number, and nothing else |
| Changelog.KeyRoundTrip | internal/changelog/event.go:36-46 | ParseKey inverts Key exactly for origins with non-empty parts and no colon in the node ID |
| Changelog.ParseKeyIff | internal/changelog/event.go:36-46 | a text is accepted exactly when it is the key of a well-formed origin, and yields that origin |
| Changelog.KeyInjective | internal/changelog/event.go:36-46 | distinct well-formed origins have distinct keys |
| Changelog.SortedOrigins | internal/changelog/event.go:134-142 | every origin of the vector once, in key order |
| Changelog.Missing | internal/changelog/event.go:134-164 | the ranges ask for exactly the sequences above `have` and up to `want`, each origin once, well formed, in key order |
| Changelog.Min | internal/changelog/event.go:169-190 | over the union of origins, the least entry of any vector, an absent one reading 0 |
| Store.Database.InsertEvent | internal/store/store.go:136-162 | invalid events are refused; a known identity changes nothing; otherwise exactly that row is added |
| Store.Database.Rollback | internal/apply/apply.go:75-78 | restores the state the transaction began in |
| Store.Database.CheckIncarnation | internal/store/nodes.go:110-122 | refuses exactly a recorded retired incarnation; unknown nodes pass |
| Store.Database.SetProgress | internal/store/progress.go:33-41 | raises one cursor, never lowers it, touches no other |
| Store.Database.SetProgressMany | internal/store/progress.go:44-55 | the row becomes the pointwise maximum; an empty vector creates no row |
| Store.Database.SaveHLC | internal/store/store.go:110-119 | stored clock after the left-to-right assignments; only the clock changes |
| Store.Database.ReadLocalVector | internal/store/progress.go:91-106 | stored cursors with current_seq for the own origin |
| Progress.ContiguousEnd | internal/store/progress.go:135-171 | the end of the unbroken run after a cursor: everything up to it present, the next absent |
| Progress.ContiguousEndIsUnique | internal/store/progress.go:135-171 | that end is unique |
| Progress.ScanContiguous | internal/store/progress.go:135-167 | the windowed scan terminates and finds that end for every window of at least one |
| Progress.AdvanceContiguous | internal/store/progress.go:111-172 | own origin: current_seq, written only when larger; others: the contiguous end, always written |
| Progress.AdvanceTouched | internal/apply/apply.go:143-147 | advancing the touched origins in any order gives one and the same progress table |
| Progress.AdvancedCursors | internal/store/progress.go:111-172 | after a batch a touched remote cursor is the contiguous end, the touched own one the greater of itself and current_seq; no other cursor and no other receiver's row moves |
| Resolver.WriteKeepsLastWrite | internal/apply/apply.go:198-234 | one more INSERT/UPDATE, new or repeated, keeps: each column holds value and version of the greatest event that carries it |
| Resolver.LastWriteIsUnique | internal/apply/apply.go:198-234 | the event set alone determines row and versions |
| Resolver.DeleteEffect | internal/apply/apply.go:178-197 | a delete that the tombstone does not block removes the row, keeps the field versions and puts up its own tombstone |
| Resolver.WriteEffect | internal/apply/apply.go:198-234 | a write changes nothing unless unblocked and winning a column; then each column it wins takes value and version, the others stay, or show their DDL default in a new row |
| Resolver.WritesIff | internal/apply/apply.go:174-236 | exactly when the application sees an event |
| RowHistory.RunKeepsInvariant | internal/apply/apply.go:174-236 | after any INSERT/UPDATE/DELETE sequence: the row exists iff it has a version and no tombstone, live columns hold the value of the event their version names, the others their default, a tombstone names a delivered delete |
| RowHistory.EventOnlyAdvances | internal/apply/apply.go:174-236 | column versions only grow; nothing at or below a standing tombstone has any effect; a tombstone yields only to a newer event |
| RowHistory.ColumnHoldsItsWriteIff | internal/apply/apply.go:206-233 | exactly when a present column holds the value its version names |
| RowHistory.RunOfWrites | internal/apply/apply.go:198-234 | any order and repetition of INSERT/UPDATE events ends in the last-write picture of their set |
| RowHistory.OrderIndependentIff | internal/apply/apply.go:187-201 | all delivery orders show the same row iff nothing was deleted or the newest event is a delete |
| RowHistory.OrderDoesNotMatter | internal/apply/apply.go:187-234 | the sufficient half: every order ends in the same row |
| RowHistory.OrderMatters | internal/apply/apply.go:187-201 | the other half: two orders end with and without the row |
| RowHistory.OrderedDeliveryIsReplay | internal/apply/apply.go:174-236 | delivered oldest first, resolution equals plain replay, deletes included |
| Apply.ResolveIntoAt | internal/apply/apply.go:174-236 | an event resolves its own row and leaves every other row, its versions and tombstone alone |
| Apply.LowerIff | internal/apply/apply.go:175-177 | two table names are the same exactly when they differ in ASCII case at most |
| Apply.AddressesIff | internal/apply/apply.go:175-186 | an event addresses the row of the table registered under any spelling of its name, by the registered spelling |
| Apply.Applier.ApplyRow | internal/apply/apply.go:174-236 | the column-by-column statements, in any column order, refine the resolution function; reports whether the row was written |
| Apply.Applier.CollectWinners | internal/apply/apply.go:206-215 | exactly the registered columns whose stored version the event beats |
| Apply.Applier.WriteVersions | internal/apply/apply.go:222-226 | gives every winning column the event's version and leaves the other versions |
| Apply.Applier.StoreEvent | internal/apply/apply.go:115-138 | validation, retirement, idempotent insert, clock past the event, resolution, in that order |
| Apply.Applier.ApplyBatch | internal/apply/apply.go:93-158 | all-or-nothing: the committed state, or the old one with the same error; counts; the clock is past every newly stored event; the vector returned is the committed one |
| Apply.InvalidEventFailsBatch | internal/apply/apply.go:114-118 | one invalid event fails every batch it is in |
| Apply.BatchCommitsIff | internal/apply/apply.go:113-139 | a batch commits iff every event has a complete identity, a table, a row, a known operation, no payload on a delete, and an origin not recorded RETIRED; the first other event gives the error |
| Apply.CountsAre | internal/apply/apply.go:121-139 | stored counts the identities new to the log, once each; written the new events that changed a row when their turn came |
| Convergence.DeliveriesKeepTables | internal/apply/apply.go:93-158 | batches, failures, repetitions and collections on top of any settled history keep all tables the last-write picture of what was received |
| Convergence.HistoryDeterminesTables | internal/apply/apply.go:198-234 | equal histories give equal rows, versions and tombstones |
| Convergence.ReplicasConverge | internal/apply/apply.go:93-158 | replicas that received the same INSERT/UPDATE events agree, whatever order, batching, duplication, failed batches, retirements, other membership changes and collections |
| ReplicaHistory.DeliveriesRun | internal/apply/apply.go:113-139 | each row of a replica is the run of the events it stored for that row |
| ReplicaHistory.ReachableRowsKeepInvariant | internal/apply/apply.go:174-236 | every row of every reachable replica obeys the row invariant |
| ReplicaHistory.ReplicasAgree | internal/apply/apply.go:174-236 | replicas that stored the same events agree on every row never deleted or whose newest event is a delete |
| Ranges.FetchRange | internal/store/store.go:176-226 | empty for an empty interval, truncated exactly when it reaches the persisted mark, else the shortest non-empty prefix that fills a limit, or all rows |
| Ranges.TakeRows | internal/store/store.go:198-225 | the scan stops at the first row that fills a limit |
| Ranges.ChunkStops | internal/store/store.go:197-223 | a chunk stops at the first row that reaches the event limit, or the byte limit with 128 bytes for each row |
| Ranges.RowsInAre | internal/store/store.go:187-193 | exactly the log rows of the interval, in sequence order |
| Ranges.RowsSplit | internal/store/store.go:187-193 | a range splits at any point into its halves |
| Ranges.ChunkEnds | internal/sync/sync.go:228-237 | a fetched chunk is everything up to its last sequence, so continuing after it skips nothing |
| Ranges.SendRange | internal/sync/sync.go:212-241 | the batches of one range carry exactly its rows for any limits, none empty, none past a limit, all but the last at one, the last alone Complete and only if the range end is in the log; or the range is truncated before anything is sent |
| Ranges.SendRanges | internal/sync/sync.go:205-249 | terminates; each range is served in request order as above, and one empty Complete batch is added exactly when the last range answered does not reach its end; a truncated range cuts off exactly there |
| Ranges.TransferShape | internal/sync/sync.go:202-249 | every full answer carries the rows of the ranges in order, has a batch, ends Complete, and has an empty batch only at the end |
| Ranges.LastServedIsCompleteIff | internal/sync/sync.go:229-240 | the last non-empty batch is Complete iff the last range that holds any row reaches its end |
| Ranges.RedundantEndIff | internal/sync/sync.go:202-204 | exactly when an empty Complete batch follows a Complete one |
| Ranges.AnswerExists | internal/sync/sync.go:205-249 | for any limits and log some answer meets that description |
| Ranges.WantedOne | internal/sync/sync.go:208-216 | one range asks for exactly its log rows, and for none when it starts at 0 or ends before it starts |
| Ranges.WantedAppend | internal/sync/sync.go:208-239 | the ranges are answered one after the other |
| Ranges.TruncatedAre | internal/store/store.go:180-186 | an answer is refused iff some proper range starts at or below its origin's mark |
| Gc.ActiveBootstrapPins | internal/store/nodes.go:210-231 | per origin the least pin of the STARTED sessions that have a row for it |
| Gc.ActiveNodes | internal/gc/gc.go:26-45 | a newer node epoch aborts; otherwise exactly the ACTIVE incarnations |
| Gc.ReceiverVectors | internal/gc/gc.go:46-58 | the vectors of exactly the ACTIVE receivers on record, none iff there is none |
| Gc.Watermarks | internal/gc/gc.go:25-85 | stale views abort; otherwise the least acknowledged sequence of the ACTIVE receivers on record, lowered by the merged pins, and empty with no receiver |
| Gc.WatermarkBounds | internal/gc/gc.go:46-84 | no watermark exceeds any ACTIVE receiver's recorded cursor or a merged pin |
| Gc.WatermarkReachesIff | internal/gc/gc.go:25-85 | in terms of the rows: a watermark reaches a sequence iff somebody counts, all who count acknowledged that far, and, while seeding, some session pins the origin and all that do pin it that high |
| Gc.MergedPinReachesIff | internal/store/nodes.go:210-231 | the same for the merged pin |
| Collection.DeleteThrough | internal/store/store.go:234-253 | deletes as many rows at or below the bound as the given limit allows, or 1000, and no others; overwrites the mark only when none remains |
| Collection.PickRows | internal/store/store.go:238-241 | the server takes as many of the rows as the limit allows, whichever they are |
| Collection.Run | internal/gc/gc.go:89-123 | one cycle under the given batch limit, or 1000: what happens to each origin's rows and mark, everything else unchanged, at most the limit from each origin, and the rows deleted add up |
| Collection.CycleRemovesOnlyAcknowledged | internal/gc/gc.go:50-121 | a removed row is at or below every ACTIVE receiver's recorded cursor and every merged pin |
| Collection.CyclesProgress | internal/gc/gc.go:96-123 | with cursors, pins and membership unchanged, i cycles keep every row above the watermark, have deleted i full batches below it, and persist the mark exactly once none remains |
| Collection.CyclesFinish | internal/gc/gc.go:96-123 | floor(rows / limit) + 1 cycles finish an origin |
| Collection.RepeatedRunsFinish | internal/gc/gc.go:89-123 | Run repeated with one batch limit finishes an origin after rows by that limit, or by 1000, and one more |
| Collection.WatermarkPositiveIff | internal/gc/gc.go:46-84 | history of an origin may go iff there is a receiver on record, each acknowledged some of it, and any merged pin is above 0 |
| Collection.CycleCollectsIff | internal/gc/gc.go:96-123 | a cycle changes the log of an origin iff some row lies at or below its watermark |
| Collection.MarkLoweredIff | internal/store/store.go:228-250 | a cycle takes a mark back iff it finishes the origin with a lower positive watermark |
| Collection.RaisingCursorsNeverLowersWatermarks | internal/gc/gc.go:46-84 | with fixed receivers and pins, raising cursors never lowers a watermark |
| Collection.OwnLogIsRetained | internal/gc/gc.go:46-84 | a cycle leaves rows and mark of the own log alone while the node is an ACTIVE receiver without a cursor for itself |
| Collection.MergedPinsProtectIff | internal/store/nodes.go:210-216 | merged pins protect every joiner iff each STARTED session pins the origin or the least pin is 0 |
| Collection.SingleSeedIsProtected | internal/store/nodes.go:210-216 | one STARTED session is always protected |
| Capture.AllocationTicks | internal/schema/schema.go:240-245 | the trigger stamps exactly as Clock.Tick on the stored clock |
| Capture.StoredClockAdvances | internal/schema/schema.go:240-245 | over any interleaving of allocations and saves the stored clock never goes back, and a later sequence number has a strictly larger stamp |
| Capture.CaptureAfterSaveIff | internal/store/store.go:110-119 | exactly when a capture after a save is stamped past the saved observation |
| Capture.CaptureAfterBatchIff | internal/store/store.go:110-119 | exactly when a capture after a committed batch is stamped past an event of that batch |
| Capture.InsertEffect | internal/schema/schema.go:253-276 | a duplicate changes nothing; otherwise the row holds the statement's values or the defaults and is logged whole, next in sequence and time |
| Capture.UpdateEffect | internal/schema/schema.go:278-312 | an id change or a missing row changes nothing; otherwise exactly the columns that differ are logged, if any |
| Capture.DeleteEffect | internal/schema/schema.go:314-333 | an existing row goes and is logged without payload |
| Capture.CapturedTable.Allocate | internal/schema/schema.go:240-245 | next sequence and stamp from the stored clock and the wall |
| Capture.CapturedTable.Append | internal/schema/schema.go:261-265 | one log entry under the freshly allocated sequence and stamp |
| Capture.CapturedTable.Differences | internal/schema/schema.go:286-296 | exactly the columns whose value changed |
| Capture.CapturedTable.Insert | internal/schema/schema.go:253-276 | a duplicate fails without effect; otherwise row, sequence, clock and log entry with all tracked columns change together |
| Capture.CapturedTable.Update | internal/schema/schema.go:278-312 | an id change fails; only columns that differ are logged; a no-op update allocates nothing |
| Capture.CapturedTable.Delete | internal/schema/schema.go:314-331 | logs a delete without payload for an existing row only |
| LocalWrites.LocalWriteSurvivesIff | internal/schema/schema.go:253-333 | for each of the three statements, exactly when the writing node and a replica that resolved both events show the same row |
| LocalWrites.ReachableIsShared | internal/apply/apply.go:174-236 | every row state that deliveries produce is one the next rows speak about |
| LocalWrites.LocalUpdateSurvivesIff | internal/schema/schema.go:278-312 | after a local update: iff the later event is a delete or each logged column survives it |
| LocalWrites.LocalDeleteSurvivesIff | internal/schema/schema.go:314-333 | after a local delete: iff the later event is a delete, newer, or wins no column; otherwise the row is back at the writer alone |
| LocalWrites.InsertThenDeleteIff | internal/schema/schema.go:253-276 | after a local insert and a delete: iff no newer tombstone stood |
| LocalWrites.TakenInsertIff | internal/schema/schema.go:253-276 | after a local insert replicas take: iff each column survives the later write |
| LocalWrites.UntakenInsertIff | internal/schema/schema.go:253-276 | after a local insert no replica takes: iff the later write makes the row everywhere and supplies each column that differs from its default |
| LocalWrites.PastWriteSurvivesIff | internal/schema/schema.go:253-333 | the same three conditions for a write stamped past every version and tombstone of its row |
| Stamps.WriteIsPastIff | internal/schema/schema.go:240-245 | over any run, the next write is stamped past every version and tombstone of the node iff the wall has moved on or no stamp at the stored time has a greater logical part |
| Replay.HostKeepsCapture | internal/schema/schema.go:240-331 | over any statements and clock saves the own log is gap-free, stamped in order, and replays to the origin's rows |
| Replay.CaptureThenReplay | internal/schema/schema.go:253-331 | a replica that stored an origin's log in order, however batched and repeated, holds exactly the origin's tracked columns in every row |
| Replay.BatchReplay | internal/apply/apply.go:93-158 | the same for one batch with duplicates anywhere after the first delivery |
| Replay.CapturedIsValidIff | internal/changelog/event.go:64-82 | replicas accept a captured event iff row id, table and identity are not empty |
| Replay.EmptyIdStopsReplication | internal/apply/apply.go:114-118 | a captured row with the empty id fails every batch that carries it |
| Seed.Prepare | internal/seed/source.go:53-117 | refuses without effect, or records the session, pins the snapshot vector and returns it |
| Seed.AdmissibleIff | internal/seed/source.go:53-84 | every reason to refuse a seed request |
| Seed.PreparedIs | internal/seed/source.go:85-116 | the session row STARTED and one pin for every origin known, at its cursor, the own one at current_seq; other sessions as before |
| Seed.PinVector | internal/seed/source.go:78-115 | one session row and one pin per origin of the vector, in any order |
| Seed.InBatches | internal/seed/source.go:199-242 | full chunks and a shorter last one, in order, nothing lost |
| Seed.StreamRows | internal/seed/source.go:183-243 | every row of the table once and nothing else, in id order under any collation, in full chunks and a shorter last one, which alone is marked done |
| Seed.ListVersions | internal/store/versions.go:93-111 | every field version of the table once and nothing else, ordered by row, then column |
| Seed.ListTombstones | internal/store/versions.go:122-141 | every tombstone of the table once and nothing else, in row order |
| Seed.StreamTable | internal/seed/source.go:143-154 | rows, then versions, then tombstones of one table |
| Seed.StreamVersions | internal/seed/source.go:245-271 | likewise for field versions |
| Seed.StreamTombstones | internal/seed/source.go:273-299 | likewise for tombstones |
| Seed.Stream | internal/seed/source.go:120-162 | a start, the sections of the tables one table after the other, an end, for any chunk size; together everything the source holds for them |
| Seed.CloseSession | internal/seed/source.go:164-176 | an acknowledgement completes the session, anything else aborts it |
| Seed.ClosedIs | internal/store/nodes.go:193-199 | acknowledged becomes COMPLETED, anything else ABORTED, on that row alone |
| Seeding.CloseReleasesPin | internal/store/nodes.go:193-199 | closing a session, either way, releases its pins and no other session's |
| SeedTarget.Target.RequireEmpty | internal/seed/target.go:164-185 | true exactly for empty registered tables, log, versions and tombstones |
| SeedTarget.Target.ApplyRows | internal/seed/target.go:188-246 | a chunk is loaded entirely or not at all |
| SeedTarget.Target.ApplyVersions | internal/seed/target.go:92-114 | loads the versions and keeps the latest stamp seen |
| SeedTarget.Target.ApplyTombstones | internal/seed/target.go:115-137 | loads the tombstones and keeps the latest stamp seen |
| SeedTarget.Target.ApplyMessage | internal/seed/target.go:80-137 | a body message is loaded entirely or refused without effect |
| SeedTarget.Target.Fetch | internal/seed/target.go:31-161 | refuses a non-empty database; succeeds iff the stream is a fitting start, loadable messages and an end; then tables, cursors, clock and saved clock are exactly the seed's; a failure leaves cursors and clock alone |
| SeedTarget.Target.FinishSeed | internal/seed/target.go:250-265 | cursors raised to the seed vector, clock restored past every seeded stamp, then saved |
| SeedTarget.SeededIs | internal/seed/target.go:250-265 | a seeded database field by field: cursors, both clocks, tables, nothing else |
| SeedTarget.SeedRowIs | internal/seed/target.go:206-240 | a seed row overwrites the columns it carries; in a new row the others show their default |
| SeedTarget.SeedVersionIs | internal/seed/target.go:92-114 | a seed version replaces that of its column and touches nothing else |
| SeedTarget.RowsLoadIff | internal/seed/target.go:188-246 | a chunk is refused iff it has rows and its table, or a column, is not registered |
| SeedTarget.StampsAre | internal/seed/target.go:92-137 | which times the clock is restored past |
| Snapshot.SnapshotIsFaithful | internal/seed/target.go:72-137 | loading a snapshot body never fails on an empty database and reproduces every streamed row, version and tombstone |
| Seeding.StreamIsAccepted | internal/seed/target.go:42-152 | an empty target takes a source's stream to its end and nowhere else |
| Seeding.SeedClockCoversSnapshot | internal/seed/target.go:103-106 | the restored clock is past every seeded version and tombstone |
| Seeding.SeedClockPersistedIff | internal/seed/target.go:259-260 | exactly when the persisted clock keeps up with the restored one |
| Seeding.PreparedSeedIsProtected | internal/seed/source.go:103-116 | while a lone session stands as prepared, no cycle on any later state removes a row above the snapshot vector or moves a mark past it |
| Seeding.PreparedSeedStaysProtected | internal/seed/source.go:103-116 | the same over any run of the mesh in which the source keeps its sessions |
| Seeding.CursorCovers | internal/store/progress.go:108-172 | every event of the history at or below a source's vector was received by it |
| Seeding.SnapshotThenDeltas | internal/seed/target.go:28-30 | snapshot plus every event above its vector, in any order and with events it already reflects, equals the whole history |
| Replica.CursorsAreContiguous | internal/store/progress.go:108-172 | over any run of batches, local writes, seed loads, acknowledgements and collections, a remote cursor N means 1..N were stored or seed-covered and N+1 is not in the log |
| Replica.VectorNeverDecreases | internal/store/progress.go:32-41 | over such a run the advertised vector never goes back |
| Replica.StepKeepsSound | internal/apply/apply.go:113-150 | each single step keeps the cursor invariant |
| Replica.BatchCursors | internal/apply/apply.go:113-147 | log and cursors after a committed batch, per origin |
| Replica.RefusedEventIsPassedIff | internal/apply/apply.go:114-118 | over any run, a cursor passes a sequence whose event is always refused iff a seed load covered it |
| Replica.CoveredIff | internal/seed/target.go:250-265 | what seeds are recorded to cover is exactly what some successful load brought, and the cursor is never below it |
| Replica.FetchIsLoad | internal/seed/target.go:250-265 | a successful fetch is a load step of such a run |
| Mesh.RunIsConsistent | internal/sync/sync.go:153-176 | in every reachable world each recorded cursor and each acknowledgement in flight is at most that peer's own vector |
| Mesh.AckIsRecorded | internal/sync/sync.go:166-176 | a recorded acknowledgement raises the record of its sender to the vector it carries |
| Mesh.CollectedRowsAreHeld | internal/gc/gc.go:40-84 | whatever a cycle removes, every ACTIVE receiver on record wrote it, stored it or loaded a seed whose vector covers it |
| Mesh.ReceiverNeverNeedsReseed | internal/store/store.go:228-233 | while every cycle counts a receiver, no Need computed from a vector at or above its record is truncated, and every row above that vector stays in the log |
| Mesh.RecordIsNeverAhead | internal/sync/sync.go:166-176 | over any run, what a node has recorded of a peer is at most that peer's own vector |
| Mesh.OwnLogNeverShrinks | internal/gc/gc.go:46-84 | over any run in which nothing brings a node its own events and its cycles count itself, no own row is ever removed |
| Reflection.CollectedEventsAreReflected | internal/gc/gc.go:40-84 | with seeds taken from nodes of the mesh, a collected INSERT/UPDATE is, at every ACTIVE receiver, its own, or in its field versions column by column, or at or below what its seeds account for without versions, its origin having served a snapshot of itself at or past it |
| Reflection.RunIsOk | internal/apply/apply.go:174-236 | the invariant behind it: stored remote events stay reflected, logs hold history, and seeds are accounted for |
| Reflection.SeededJoinerAgreesIff | internal/seed/source.go:245-271 | a joiner seeded from the writer agrees with a replica of the write iff the write survives at the writer |
| Reflection.FetchSeedsInto | internal/seed/target.go:31-161 | a successful fetch of a stream of the registered tables is such a seed load: those tables as at the source, the others as before |
| SeededWrites.SeededValueIff | internal/seed/source.go:85-162 | over any run, a joiner that loads a snapshot the writer served after a write shows the written value iff the last statement or event to touch the column by then left it; the snapshot accounts for the write either way |
| SeededWrites.ShownIff | internal/apply/apply.go:174-236 | a column shows a value after any statements, arrivals and seed loads iff the last one to touch it did not leave another |
| SeedGap.SeedToRecordIff | internal/seed/source.go:164-176 | from the preparation of a lone seed on, what lies above its vector is kept and served all the way iff every cycle after the close spares it |
| SeedGap.FullCycleRetainsIff | internal/gc/gc.go:96-123 | a cycle within its limit spares it iff its watermark does not pass the seed vector |
| SeedGap.RecordTakesOver | internal/gc/gc.go:46-84 | once a record of the joiner at or past the seed vector stands and cycles count it, all above the record is kept and served |
| Session.Sync.ValidateHello | internal/sync/sync.go:251-265 | accepts exactly the same protocol, the same schema version, a complete identity, not the own one, and none recorded RETIRED |
| Session.Sync.OnHello | internal/sync/sync.go:80-114 | the handshake: greeting order by role, refusal with an error frame, or a Need for exactly what is missing |
| Session.Sync.OnNeed | internal/sync/sync.go:133-146 | answers with a full transfer, or the part before truncated history and an error frame |
| Session.Sync.OnBatch | internal/sync/sync.go:147-165 | collects until Complete, applies in one transaction, acknowledges the committed vector only after it |
| Session.Sync.OnAck | internal/sync/sync.go:166-176 | the record of the peer becomes the greater of itself and the vector at every origin, no other record and no other table changes |
| Session.Sync.OnFrame | internal/sync/sync.go:124-183 | one turn of the loop, every kind of frame |
| Session.Sync.Loop | internal/sync/sync.go:116-185 | the loop ends exactly when all three flags are set, on an error, or when frames run out |
| Session.Sync.Run | internal/sync/sync.go:61-186 | the whole session follows the half's transition relation frame by frame; an initiator greets first; a success means the greeting suited and every acknowledgement read is on record |
| SessionPair.RunKeepsInv | internal/sync/sync.go:110-186 | the invariant tying two halves over FIFO streams, in every interleaving with outside activity, membership changes and failures |
| SessionPair.StreamsFollowGrammar | internal/sync/sync.go:110-186 | each stream is HELLO, Need, Batch+, Ack+, or a prefix cut by an error frame |
| SessionPair.DoneMeansAllApplied | internal/sync/sync.go:116-185 | a finished side has read every batch for its Need, applied all events in order and has none pending, however many batches were Complete |
| SessionLiveness.NeverStuck | internal/sync/sync.go:116-186 | until both sides have ended some protocol move is possible |
| SessionLiveness.ProgressShrinks | internal/sync/sync.go:116-186 | every protocol move decreases phases, unread batches or unread frames lexicographically |
| SessionLiveness.Play | internal/sync/sync.go:116-186 | whatever a scheduler that sees the whole run picks among the protocol moves, the run it continues ends with both sides finished or failed |
| SessionLiveness.ProtocolMovesAreBounded | internal/sync/sync.go:116-186 | every run, with any activity in between, has at most ten protocol moves and two for each batch written |
| SessionLiveness.OtherMovesDoNotGrow | internal/sync/sync.go:116-186 | activity outside the protocol and aborts never increase the measure |
| SessionOutcome.SucceedsUnlessRootCause | internal/sync/sync.go:98-182 | an ended session succeeded on both sides iff no side refused, had truncated history, failed to apply or was interrupted |
| SessionSuccess.SucceedsIff | internal/sync/sync.go:98-182 | an undisturbed session that has ended succeeded on both sides iff, at its beginning, each side would take the other's greeting, held the history the other lacked, and would take every row the other had for it |
| SessionSuccess.TruncatedIff | internal/sync/sync.go:133-146 | a Need is refused iff what the asker lacks of some origin begins at or below the mark |
| SessionSuccess.WantedIsAsked | internal/sync/sync.go:205-241 | a Need is answered with exactly the rows held of what the asker lacks |
| SessionOutcome.AppliedIsWhatWasHeld | internal/sync/sync.go:110-165 | a finished side applied exactly the rows it asked for as the peer's log held them when it answered, in request order |
| SessionOutcome.SessionCatchesUp | internal/sync/sync.go:110-186 | a finished side reaches, per other origin, whatever part of the peer's greeting the peer held without a gap, and lost nothing |
| SessionOutcome.BothReachGreetings | internal/sync/sync.go:110-186 | with no gap in the ranges asked for, both sides reach each other's greeting vector |
| SessionRecords.FinishedHasRecorded | internal/sync/sync.go:166-185 | over any run a finished half has read an acknowledgement, and every one it read is on its record of the peer |
| SessionRecords.TalksToItsKind | internal/sync/sync.go:251-265 | over any run a half past the handshake has its peer's protocol and schema version, and the peer's identity is complete, foreign, and was not recorded RETIRED when greeted |
| Membership.Manager.UpsertNode | internal/store/nodes.go:34-45 | an existing row keeps its status and the greater epoch |
| Membership.Manager.SetNodeStatus | internal/store/nodes.go:83-95 | overwrites status and epoch of a known node only |
| Membership.Manager.BumpEpoch | internal/membership/membership.go:80-91 | persisted and cached epoch become persisted + 1 |
| Membership.Manager.SetEpoch | internal/membership/membership.go:67-77 | adopts a higher epoch only, in memory and on disk |
| Membership.Manager.LoadEpoch | internal/membership/membership.go:54-61 | the cached epoch becomes the persisted one |
| Membership.Manager.EnsureSelfRow | internal/membership/membership.go:103-115 | inserts the own row as JOINING only when missing |
| Membership.Manager.AddNode | internal/membership/membership.go:121-149 | refusals roll rows and persisted epoch back but not the cached epoch; a success bumps the epoch and upserts |
| Membership.Manager.ActivateNode | internal/membership/membership.go:152-170 | fails for unknown and RETIRED nodes, is a no-op for ACTIVE ones, else activates at a new epoch |
| Membership.Manager.RetireNode | internal/membership/membership.go:173-184 | retires a known node at a new epoch |
| Membership.Manager.MergeMember | internal/membership/membership.go:258-306 | the merge of one gossiped record, every branch |
| Membership.Manager.HandleHeartbeat | internal/membership/membership.go:222-255 | adopts the sender's higher epoch and merges sender and members, skipping itself and unnamed entries |
| Membership.Manager.CheckPeer | internal/membership/membership.go:309-321 | refuses exactly a recorded retired incarnation |
| Membership.UpsertedIs | internal/store/nodes.go:34-45 | an upsert row by row and field by field |
| Membership.AddedIs | internal/membership/membership.go:121-149 | when an addition is refused, and the whole row of one that is not |
| Membership.StatusChangeIs | internal/membership/membership.go:152-184 | activation and retirement: when they succeed, and the one row they change |
| Membership.MergedIs | internal/membership/membership.go:258-306 | the whole row after merging a gossiped record, for every kind of record and row |
| Membership.AdoptedIs | internal/membership/membership.go:67-77 | a higher epoch in memory and on disk, any other in neither |
| Membership.StartupIs | internal/membership/membership.go:54-115 | the own row only when missing, the cached epoch from disk |
| Membership.BeatIs | internal/membership/membership.go:222-255 | a heartbeat: the sender's epoch, then sender and members merged in order |
| Membership.RetiredForever | internal/membership/membership.go:121-306 | no run of operations leaves RETIRED |
| Membership.RetiredIsRefused | internal/membership/membership.go:309-321 | until its node ID is added again, a retired incarnation stays refused as peer and as event origin |
| Membership.MergedRetiredIff | internal/membership/membership.go:258-301 | a merge retires an incarnation iff the record says so and the node is unknown, or stored under that incarnation, not RETIRED, at no newer epoch |
| Membership.MergedAllRetiredIff | internal/membership/membership.go:246-306 | the same for a list of records |
| Membership.RetiredIncarnationIff | internal/membership/membership.go:121-306 | for each operation, exactly which incarnations are RETIRED after it |
| Membership.ActiveOnlyByActivate | internal/membership/membership.go:151-170 | the row of a node ID becomes ACTIVE exactly by Activate of a known, unretired, inactive node |
| Membership.ActiveIncarnationIff | internal/membership/membership.go:151-306 | for each operation, exactly which incarnations are ACTIVE after it |
| Membership.MergedAllActiveIff | internal/membership/membership.go:246-306 | for a list of gossiped records, exactly which incarnations are ACTIVE after the merge |
| Membership.AddJoinsIff | internal/membership/membership.go:117-149 | a successful addition ends JOINING iff the node ID was unknown |
| Membership.AddSwapsRefusal | internal/membership/membership.go:117-149 | re-adding a retired ID refuses the new incarnation, admits the old and cannot be activated |
| Membership.EpochsStayClose | internal/membership/membership.go:54-91 | persisted epochs never go back and the cached one stays within one of it |
| Membership.AdoptionLagsIff | internal/membership/membership.go:237-241 | exactly when a heartbeat's epoch is not persisted |
| Membership.BehindIsStale | internal/gc/gc.go:26-45 | a row ahead of the persisted epoch is exactly what aborts a cycle |
| Membership.MergedAboveIff | internal/membership/membership.go:258-306 | exactly when merging a list of records leaves a row above an epoch |
| Membership.HeartbeatPausesIff | internal/membership/membership.go:237-255 | exactly when a heartbeat leaves collection paused |
| Membership.LoneHeartbeatPausesIff | internal/membership/membership.go:237-255 | the same for a sender alone: a refused addition went before, the sender is at that epoch, and its record is heeded |
| Broadcast.Broadcaster.Collect | internal/sync/broadcast.go:31-55 | anchors first, then takes the next chunk of own rows and moves past it; truncation changes nothing |
| Broadcast.BroadcastsAreTheLog | internal/sync/broadcast.go:31-55 | over any interleaving with local writes and other activity above the cursor untouched, the broadcasts are exactly the own events after the anchor up to the cursor, in order, once each |
| Broadcast.CycleBelowCursorIsOther | internal/sync/broadcast.go:45-48 | a GC cycle whose own watermark has not passed the cursor is such activity |
| Counterexamples.DeleteRace | internal/apply/apply.go:187-197 | an insert and a delete of one node and a newer update of another: arriving last, the delete removes the update |
| Counterexamples.ResurrectionForgetsColumn | internal/apply/apply.go:206-233 | a resurrected row shows a default under an old version |
| Counterexamples.StampAfterSaveIsEarlier | internal/store/store.go:112-116 | a capture stamped before an observed and saved time |
| Counterexamples.SecondJoinerUnprotected | internal/store/nodes.go:211-216 | two sessions as Prepare leaves them, and a merged pin above what the first joiner needs |
| Counterexamples.RebuiltNodeStaysRetired | internal/store/nodes.go:39-42 | a rebuilt node recorded RETIRED under its new incarnation |
| Counterexamples.TrailingBatchAfterComplete | internal/sync/sync.go:202-249 | asked for all its greeting advertises: a full range followed by one known only from a seed |
| Counterexamples.AcknowledgedOwnRowStays | internal/gc/gc.go:46-84 | an own event every peer has acknowledged, kept by any cycle |
| Counterexamples.LocalUpdateIsOverwritten | internal/schema/schema.go:278-312 | a local update lost at its own node only |
| Counterexamples.LocalDeleteIsUndone | internal/schema/schema.go:314-333 | a locally deleted row back at its own node only |
| Counterexamples.LocalInsertIsUnseen | internal/schema/schema.go:253-276 | a node that saw a delete at 5.3 and saved 5.0 stamps its insert 5.1 |
| Counterexamples.SeededJoinerIsOverwritten | internal/seed/source.go:245-271 | a joiner seeded with a local update loses it to an older event |
| Counterexamples.SeededJoinerMissesWrite | internal/seed/source.go:245-271 | a snapshot past a local write that holds neither its value nor a version for it |
| Counterexamples.SeedPersistsEarlierClock | internal/seed/target.go:259-260 | an accepted seed with a version at 5.3 that persists 5.0 |
| Counterexamples.RefusedAdditionPausesCollection | internal/membership/membership.go:121-149 | a refused addition, after which a heartbeat pauses collection |
| Counterexamples.EmptyIdIsLogged | internal/schema/schema.go:253-276 | inserting an empty id logs an event no replica accepts |
| Counterexamples.RetiredRowIsForwarded | internal/store/nodes.go:103-122 | a held row of a retired origin, forwarded, and fatal to every batch it is in |
| Counterexamples.GossipSwapsIncarnation | internal/membership/membership.go:258-306 | a heartbeat that makes another incarnation the ACTIVE one |
| Counterexamples.MarkGoesBack | internal/store/store.go:228-250 | a mark taken back from 10 to 3, after which a request for 4 to 10 is answered with nothing |
| Counterexamples.JoinerIsTruncated | internal/gc/gc.go:46-84 | a seeded joiner whose first request is refused |

## Left out

- Transport, TLS, datagrams, framing and JSON: streams are reliable FIFO queues of typed frames, payload values are opaque with equality.
- SQL text, quoting and DDL: each statement is modelled by its meaning, each transaction as one atomic step. Database failures and isolation anomalies are not modelled beyond rollback on refused events and chunks; a session may be interrupted at any point.
- MariaDB comparison: the triggers' null-safe comparison is plain equality of values, so columns a collation considers equal but spelled differently are out.
- Integer widths: sequences, epochs and clocks are unbounded; `Hlc.StampBounds` shows the logical counter needs as many steps as its value.
- Vector keys: vectors map origins, not `node:incarnation` texts; `Changelog.KeyRoundTrip` says for which origins this is the same. A node ID with a colon, which validation admits, is not covered.
- Lower-casing of table names covers ASCII only.
- Rows are maps over the registered columns; unregistered columns of a table, and generated or trigger-side defaults, are not part of this model.
- Seed.Prepare: session rows and pins are one step here, while the code writes them one by one and aborts the session on a failure in between; its callers exclude collection meanwhile.
- SeedTarget.Target.Fetch: the stream digest is left out; source and target feed it differently for two or more tables.
- SessionOutcome.AppliedIsWhatWasHeld: an answer is read from one log; the code fetches it range by range and chunk by chunk outside a transaction, so a collection or a write between two chunks of one answer is not modelled.
- Session.Sync.OnNeed: the same.
- Seed.Stream: the digest in the end frame is left out.
- Session.Sync.Run: a failure to record the peer's vector is only logged by the code and does not occur here; HELLO fields that carry no decision (mode, address, epoch) are left out.
- Convergence.ReplicasConverge: covers replicas that do not originate writes to the same rows; `LocalWrites.LocalWriteSurvivesIff` says, for each statement, what happens when they do.
- Replay.BatchReplay: asks for valid events, which `Replay.CapturedIsValidIff` characterises.
- Mesh.CollectedRowsAreHeld: a load may bring any vector here, and what a seed from a real node accounts for is `Reflection.CollectedEventsAreReflected`; an ACTIVE node with no progress row is not a receiver, as in the code; a node that loses its database under the same incarnation is not modelled.
- Reflection.CollectedEventsAreReflected: covers INSERT/UPDATE events; with deletes, delivery order matters (`RowHistory.OrderIndependentIff`).
- SessionLiveness.Play: leaves out activity outside the protocol; `SessionLiveness.ProtocolMovesAreBounded` covers every run.
- SessionSuccess.SucceedsIff: for sessions with nothing else at either node; with other activity, membership, marks and logs may change between the greeting and their use, and `SessionOutcome.SucceedsUnlessRootCause` covers that.
- Collection.Run: one atomic step here. The code reads epoch, nodes, cursors and pins, and deletes origin by origin, in separate statements, so a record, a pin or a membership change between them is not modelled.
- Stamps.WriteIsPastIff: leaves out aborted seed loads, which bring versions without saving a clock.
- Membership.Manager.HandleHeartbeat: last-seen times, health and the member cap of outgoing heartbeats are left out.
- AllocateSeq (tests and tools), Vector.Set and HasEvent (unused by the modelled paths), status reporting, schema validation, identity hashing, lifecycle loops and peer address books would only add plumbing.
