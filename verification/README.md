# TraceDB, modelled and proved in Dafny

TraceDB is a log-structured record store with hybrid retrieval. This project models the
parts of it that carry its guarantees and proves those guarantees for every input, every
run or every reachable state:

- the HNSW vector index: building the layered graph, searching it, and when the answer is
  the brute-force one (`Hnsw`, `HnswBuild`, `VectorSearch`);
- the write-ahead log at byte level: frames, the checksum chain, torn tails, cached tails,
  runs of several handles with crashes inside an append, and tails that clones share while the
  file is truncated behind them (`Bytes`, `WalFrame`, `Wal`, `WalRuns`, `WalTails`);
- crash recovery of the engine: commits, checkpoints and reopening as a step machine with a
  crash between any two I/O actions (`Schemas`, `Engine`); when the record store lets a
  reopening succeed, and with which records (`Records`, `EngineRecords`, and after schema
  changes `SchemaChanges`, `EngineChanges`); cloned handles over the bytes of one log
  (`EngineClones`); and the step machine over the bytes of its log (`EngineLog`, `EngineBytes`;
  `EngineCodec` shows that serialisations as these theorems ask for exist);
- the job catalog: leases, retries, and replay of the logged events (`Jobs`);
- the remote manifest pointer and the writer lease: clients that interleave reads and
  conditional writes on one object (`ObjectStore`, `ManifestCas`, `RemoteLease`);
- segment and index files against the manifest: publish, compact and vacuum by several
  handles with crashes (`Artifacts`);
- the lexical cache (`LexicalCache`), rank fusion (`Fusion`), the inverted text index and its
  scoring (`TextIndex`, `TextScore`), and the keeper's branch log (`Keeper`).

`Ordering`, `Decimal` and `Texts` are shared helpers: total orders with the enumerations they
induce, decimal text inside composed keys, and trimming.

The modules share one layout. A pure function says what an operation computes; the loop or
the state change of the source is a method, or a class with `modifies`, proved equal to that
function; the lemmas then prove what the function is for. Protocols are step functions over
an explicit state, an invariant that every step keeps, and theorems about `Run`.

`dafny verify dfyconfig.toml` checks everything.

Some properties one might expect turn out false of the code. Each has lemmas that show how
it fails and exactly when:

- The descent through the upper HNSW levels never moves: with a beam of 1 a layer search
  returns its start, for every graph (`Hnsw.SingleStepStaysPut`, `HnswBuild.DescendStaysPut`).
- The log's writer does not check what its reader demands of a commit. Over every run the log
  can be scanned if and only if the reader accepts every commit that was appended
  (`WalRuns.EveryRun`, `Wal.AppendStaysReadable`); `Wal.UnmarkedCommitEndsLog` is an append
  after which it cannot. The engine's own commits are always accepted
  (`EngineLog.EngineCommitsAreCommitted`).
- Reopening replays logged writes under the schemas as they are at the end, where live writes
  were checked under the schemas of the moment. Over every run it succeeds if and only if the
  final schemas accept every write logged past the checkpoint (`Engine.EveryRunRecovers`).
  - It succeeds, with the same records, if since the checkpoint no written table's identity or
    vector columns were changed and the writes name their tenants
    (`EngineRecords.SteadyRunRecovers`); applying a schema again or changing scalar and text
    columns does no harm (`EngineRecords.ReapplyKeepsSteady`).
  - After such a stretch an accepted change leaves the database openable if and only if every
    write since the checkpoint fits the new vector columns and, where identity columns are
    renamed, names its record rightly there, and every feature left dirty is still a column or
    was kept from the checkpoint; and the records come back the same if and only if every live
    record written since has the same columns either way (`EngineChanges.ChangeReopens`).
  - Dropping a vector column that a write left dirty, declaring a vector column whose name a
    write used with other dimensions, renaming an identity column to one that a write used
    otherwise, and writing for a blank tenant beside the same record id of another tenant are
    all accepted, and the database cannot be opened again
    (`EngineChanges.DroppedColumnIsFinal`, `EngineChanges.LateColumnIsFinal`,
    `EngineChanges.RenamedIdentityIsFinal`, `EngineChanges.BlankTenantIsFinal`,
    `Engine.RefusedForGood`). Adding a vector column after a write lets it open with other
    records (`EngineChanges.AddedColumnChangesRecords`).
- A cloned handle that publishes while behind takes over the durable manifest but not the
  records, nor what the log has become. Over every run of clones, all acknowledged commits are
  counted at a reopening if and only if the checkpoint in force was not last written by such a
  handle and no frame was chained to anything but the last one since the log was truncated
  (`EngineClones.EveryRunCounts`, and for one checkpoint `EngineClones.CheckpointKeepsAll`). A
  call chains its frame wrongly if and only if its handle has cached the length of the file and
  another checksum than that of the last frame (`EngineClones.CallMisleads`).
  `EngineClones.AdoptedCheckpointLosesCommit` is a run that loses a commit, and
  `EngineClones.MisledAppendEndsLog` one after which the database cannot be opened again.
- Releasing a lease deletes its object, so the next acquire starts at token 1 again. Over every
  run fencing tokens are unique if and only if no acquire commits after a release
  (`RemoteLease.TokensUniqueIffNeverReacquired`); `RemoteLease.ReleaseRestartsTokens` is a run,
  for any two holders, in which they are not.
- A publication seals the records it was given if and only if no file of that name with other
  records was left behind (`Artifacts.WhatGetsSealed`); `Artifacts.OrphanIsPublished` is a run
  after which the manifest names the old records.
- Through the saturated tick the lexical cache agrees with the list after every prefix of a run
  if and only if at each eviction there the entry that has to go has an older stamp or the least
  key (`LexicalCache.AgreesIffEvictionsMeet`);
  `LexicalCache.SaturatedEvictsNewest` is a run of the engine's cache that ends otherwise.
- Two keeper branch ids can share a key if and only if one, with U+001F after it, begins the
  other (`Keeper.SharedKeyIffRelated`); commits are idempotent appends for every history over a
  set of ids if and only if no two of them are related so (`Keeper.SafeIffUnrelated`), and every
  related pair loses a commit (`Keeper.RelatedLosesCommit`).
- A keeper file without a directory part is never made durable by a directory sync.
  Acknowledged commits survive every run if and only if the path has a directory part
  (`Keeper.AcksSurviveIffParent`; `Keeper.UnsyncedRenameLosesAck` is a run that loses one).

## Model

| member | source | states |
|---|---|---|
| Hnsw.KeyTextInjective | crates/tracedb-index/src/lib.rs:1023-1028 | the stored key text of a vector gives back its record id and version |
| Hnsw.ExploreStops | crates/tracedb-index/src/lib.rs:785-828 | a layer walk never overspends its budget, and one that stops below it has exhausted everything reachable |
| Hnsw.ExploreStaysInside | crates/tracedb-index/src/lib.rs:785-828 | a walk visits only what its starts reach along the layer's edges |
| Hnsw.SearchLayerKeepsAll | crates/tracedb-index/src/lib.rs:785-828 | the final cut to the beam drops nothing that was visited |
| Hnsw.SingleStepStaysPut | crates/tracedb-index/src/lib.rs:785-828 | with a beam of 1 a layer search returns exactly its start |
| Hnsw.HnswSearchLayer | crates/tracedb-index/src/lib.rs:785-828 | the loop over frontier and visited set computes the specified walk, for any graph contents |
| HnswBuild.LinkKeepsOrder | crates/tracedb-index/src/lib.rs:852-898 | linking keeps every list duplicate-free, self-free, on its layer and within its degree; on a small layer it adds the edge both ways and drops none |
| HnswBuild.SelectedAreOthers | crates/tracedb-index/src/lib.rs:830-850 | the neighbours selected for a new node are other nodes of the layer; all of them on a small complete layer |
| HnswBuild.InsertKeepsOrder | crates/tracedb-index/src/lib.rs:719-764 | one insertion adds exactly one node to a layer, keeps it well formed and hands on a start that lies on it |
| HnswBuild.DescendStaysPut | crates/tracedb-index/src/lib.rs:699-717 | the descent hands on the entry point unchanged |
| HnswBuild.InsertNodeOk | crates/tracedb-index/src/lib.rs:658-783 | every insertion keeps the graph well formed (nested layers, in-layer edges, degree bound, entry point on the top level) over one node more, and a small ground level complete |
| HnswBuild.BuildOk | crates/tracedb-index/src/lib.rs:658-783 | every built graph is well formed over all keys of the field, for any level assignment; a small field gets a complete ground level |
| HnswBuild.InsertIntoLayer | crates/tracedb-index/src/lib.rs:720-751 | the in-place linking loop computes the specified layer |
| HnswBuild.InsertBelowEntry | crates/tracedb-index/src/lib.rs:699-777 | the descent and level loops compute the specified insertion |
| HnswBuild.BuildHnswGraph | crates/tracedb-index/src/lib.rs:658-783 | the build loop computes the specified graph |
| VectorSearch.RankedIsTop | crates/tracedb-index/src/lib.rs:933-962 | the brute-force answer is ordered, duplicate-free, and leaves out only what ranks below all it holds, for want of room |
| VectorSearch.SearchIsSound | crates/tracedb-index/src/lib.rs:509-592 | for any graph contents the answer is ordered, duplicate-free, within the limit, and true scores of allowed entries |
| VectorSearch.SearchIsExactWhenWhole | crates/tracedb-index/src/lib.rs:509-592 | for any graph contents the answer is brute force whenever fallback is reported or the ground level was visited whole |
| VectorSearch.ConnectedSearchIsExact | crates/tracedb-index/src/lib.rs:509-592 | on a connected ground level that the beam covers the answer is brute force |
| VectorSearch.SmallFieldSearchIsExact | crates/tracedb-index/src/lib.rs:473-592 | a field of at most 2m+1 = 33 vectors, as built, is searched exactly for every query, limit, allowed set and level assignment |
| VectorSearch.SearchUpperLevels | crates/tracedb-index/src/lib.rs:528-542 | the loop over the upper levels computes the specified descent and visits |
| VectorSearch.SearchHnswVectors | crates/tracedb-index/src/lib.rs:509-592 | the search as it runs computes the specified report |
| VectorSearch.SearchLegacyGreedy | crates/tracedb-index/src/lib.rs:594-656 | legacy greedy search over any adjacency answers exactly like brute force and reports fallback when it did not visit every entry |
| WalFrame.ReadWholeFrame | crates/tracedb-log/src/lib.rs:544-678 | a whole frame reads back as the entry written, whatever follows, if its commit is one the reader accepts, and is reported corrupt if not |
| WalFrame.ReadCutFrame | crates/tracedb-log/src/lib.rs:544-678 | a frame cut anywhere is torn at its start, never corrupt |
| WalFrame.ReadAcceptsOnlyFrames | crates/tracedb-log/src/lib.rs:501-518 | whatever the reader accepts is byte for byte the frame the writer would assemble, with checksum, chain and commit checked |
| Wal.ScanThroughLog | crates/tracedb-log/src/lib.rs:544-678 | scanning a log followed by anything gives its entries and goes on from its last checksum |
| Wal.CutSplits | crates/tracedb-log/src/lib.rs:544-678 | a log cut at any byte is its whole frames and a proper piece of the next |
| Wal.ScanOfCutLog | crates/tracedb-log/src/lib.rs:530-678 | for every cut, scan returns exactly the whole frames, the torn offset is the end of the last, and truncating there rescans cleanly to the same entries |
| Wal.AppendStaysReadable | crates/tracedb-log/src/lib.rs:225-257 | an append leaves the log readable if and only if the commit is one the reader accepts |
| Wal.UnreadableLog | crates/tracedb-log/src/lib.rs:544-678 | a log in which some commit is not one the reader accepts cannot be scanned, whatever follows |
| Wal.FrameAppended | crates/tracedb-log/src/lib.rs:225-257 | a frame appended to any file that scans whole keeps it readable if and only if it is chained to the last frame, and is then one entry more |
| Wal.UnmarkedCommitEndsLog | crates/tracedb-log/src/lib.rs:225-257 | an append without the commit marker is acknowledged and makes the file unreadable |
| Wal.ScanFile | crates/tracedb-log/src/lib.rs:544-678 | the scan loop over offset and entries computes the specified scan of any bytes |
| Wal.Open | crates/tracedb-log/src/lib.rs:184-206 | opening truncates a torn tail and keeps the tail of the scan; a corrupt file is refused and left as it is |
| Wal.WalHandle.AppendCommit | crates/tracedb-log/src/lib.rs:225-257 | append refreshes a stale tail, refuses an oversized payload, and otherwise extends the file by one frame and the tail with it |
| WalRuns.RefreshedTail | crates/tracedb-log/src/lib.rs:225-257 | however stale a handle's cache, it appends at the tail of the whole history, or not at all when it would have to rescan a history the reader refuses |
| WalRuns.NextKeepsInv | crates/tracedb-log/src/lib.rs:184-257 | every open, append of any commit, and crash at any byte keeps the file a chained history plus at most one torn piece |
| WalRuns.EveryRun | crates/tracedb-log/src/lib.rs:184-257 | over every run the log scans if and only if the reader accepts every commit appended, and then to LSNs 1..n in an unbroken chain; every acknowledged commit is in the history once in order, and every other was interrupted after its last byte |
| Schemas.FindUpsert | crates/tracedb-query/src/lib.rs:4067-4076 | an upsert changes what is found under its own name and nothing else |
| Schemas.UpsertShape | crates/tracedb-query/src/lib.rs:4067-4076 | an upsert replaces the one schema of that name in place or appends, and keeps names unique |
| Schemas.UpsertsIdempotent | crates/tracedb-query/src/lib.rs:4067-4076 | replaying schema changes that were already taken changes nothing, order included |
| Schemas.ReplayOverPrefix | crates/tracedb-query/src/lib.rs:1017-1025 | replay over a manifest that already holds a prefix of the replayed changes equals applying each change once |
| Schemas.UpsertAll | crates/tracedb-query/src/lib.rs:1021-1025 | the loop over replayed schema changes |
| Records.KeyTellsTable | crates/tracedb-store/src/lib.rs:1172-1178 | record keys of tables without NUL in their names tell the tables apart |
| Records.Replay | crates/tracedb-store/src/lib.rs:101-138 | the loop over the commits of a replay applies each under the given schemas and stops at the first refusal |
| Records.PlannedReplays | crates/tracedb-store/src/lib.rs:101-138 | replay under the schemas of the call takes every write a live call logged, and leaves the same records, if the call named its tenants |
| Records.SameApplyAll | crates/tracedb-store/src/lib.rs:101-138 | replay depends only on the identity and vector columns of the tables written |
| SchemaChanges.ApplyIsOps | crates/tracedb-store/src/lib.rs:101-138 | a commit is its writes one by one and then its invalidations |
| SchemaChanges.FeaturesAre | crates/tracedb-store/src/lib.rs:1033-1090 | after a replay a live record has the features it kept from the start and, if written since, the vector columns of the schema used |
| SchemaChanges.IdentityIs | crates/tracedb-store/src/lib.rs:370-415 | what a replay leaves in the identity columns of a live record: the names of the last write, or what the record held at the start |
| SchemaChanges.ChangedReplay | crates/tracedb-store/src/lib.rs:101-138 | accepted writes that name their tenants are accepted under one changed schema if and only if they fit its vector columns and, where they are not kept, its identity columns, and every feature left dirty stays |
| SchemaChanges.ChangedRecords | crates/tracedb-store/src/lib.rs:1033-1090 | and the replay builds the live records if and only if every live record written since has the same columns either way |
| Engine.RecoveryIsExact | crates/tracedb-query/src/lib.rs:984-1045 | from any disk that keeps the invariant, reopening succeeds if and only if the final schemas accept every write past the checkpoint, and then rebuilds schemas, receipts, job catalog and commit sequence of the whole history, and the records of that replay |
| Engine.StepKeepsInv | crates/tracedb-query/src/lib.rs:984-1059 | every I/O action of open, commit and checkpoint, and a crash after any of them, keeps the invariant |
| Engine.EveryRunRecovers | crates/tracedb-query/src/lib.rs:984-1059 | over every run with crashes anywhere, reopening succeeds if and only if the final schemas accept every write past the checkpoint; then it rebuilds the history, every acknowledged commit counted exactly once |
| Engine.RefusedForGood | crates/tracedb-query/src/lib.rs:1037-1037 | a refused reopening stays refused, whatever is tried |
| EngineRecords.StepKeepsRecords | crates/tracedb-query/src/lib.rs:1104-1142 | every I/O action and crash keeps: over a stretch since the checkpoint in which no written table's identity or vector columns changed and writes name their tenants, the replay accepts every write and gives the live records |
| EngineRecords.SteadyRunRecovers | crates/tracedb-query/src/lib.rs:984-1059 | over every run: if since the checkpoint no written table's identity or vector columns were changed and the writes name their tenants, reopening succeeds and gives an idle engine's memory back whole |
| EngineRecords.ReapplyKeepsSteady | crates/tracedb-query/src/lib.rs:1065-1098 | applying a schema with the same identity and vector columns keeps that condition, whatever was written before |
| EngineChanges.ChangeReopens | crates/tracedb-query/src/lib.rs:2623-2662 | in any run, after such a stretch, any accepted schema change leaves the database openable if and only if it fits the writes since the checkpoint, renamed identity columns included; and with the live records if and only if the columns agree |
| EngineChanges.IdentityOrNoLiveRow | crates/tracedb-query/src/lib.rs:2623-2649 | an accepted change keeps the identity columns unless the table has no live row |
| EngineChanges.SessionReopens | crates/tracedb-query/src/lib.rs:1037-1037 | after accepted calls without a checkpoint, reopening succeeds if and only if the final schemas accept all their writes |
| EngineChanges.ChangeAfterInsertReopens | crates/tracedb-query/src/lib.rs:2623-2662 | a table changed after one insert can be reopened if and only if the insert fits every vector column of the new schema and every column it left dirty is still one; and with the live records if and only if the vector columns have the same names |
| EngineChanges.DroppedColumnIsFinal | crates/tracedb-store/src/lib.rs:626-665 | a session that drops a vector column left dirty: every call accepted, never opened again |
| EngineChanges.LateColumnIsFinal | crates/tracedb-store/src/lib.rs:1092-1106 | a session that declares a vector column after a write of other dimensions: every call accepted, never opened again |
| EngineChanges.AddedColumnChangesRecords | crates/tracedb-store/src/lib.rs:1033-1090 | a session that adds a vector column after a write: opened again, with other records |
| EngineChanges.RenamedIdentityIsFinal | crates/tracedb-store/src/lib.rs:1117-1150 | a session that deletes a table's only record and then renames its primary id to a column that the record used otherwise: every call accepted, never opened again |
| EngineChanges.BlankTenantIsFinal | crates/tracedb-store/src/lib.rs:735-783 | a session that writes for a blank tenant beside the same id of another tenant: every call accepted, never opened again |
| Engine.IdleMemoryIsFresh | crates/tracedb-query/src/lib.rs:2570-2621 | whenever the engine is idle the staleness test finds nothing newer, and a reopening that succeeds gives the memory back but for the records, which are those of the replay |
| Engine.UndisturbedCall | crates/tracedb-query/src/lib.rs:1104-1142 | the steps of an undisturbed call add up to what the call does as a whole |
| Engine.UndisturbedCheckpoint | crates/tracedb-query/src/lib.rs:2282-2311 | the steps of an undisturbed checkpoint add up to what it does as a whole |
| Engine.TraceDb.Refresh | crates/tracedb-query/src/lib.rs:2570-2621 | a handle is refused exactly when the log or the manifest on disk is newer than its own: the reopening it would need asks for the lock it holds |
| Engine.TraceDb.Perform | crates/tracedb-query/src/lib.rs:1061-1142 | a call on a current handle is checked under its schemas and records and if accepted appends one commit at the next epoch, applies it in memory and renames the manifest; a stale handle or a rejected call changes nothing |
| Engine.TraceDb.WriteCheckpointFile | crates/tracedb-query/src/lib.rs:2282-2311 | a checkpoint writes its file, then the manifest, then empties the log; a stale handle stops after the file |
| Engine.Open | crates/tracedb-query/src/lib.rs:929-1059 | opening computes the specified recovery, its refusals included, and brings a lagging manifest level |
| Engine.ReplayEvents | crates/tracedb-query/src/lib.rs:1032-1036 | the loop over replayed job events |
| WalTails.LookKeepsOk | crates/tracedb-log/src/lib.rs:212-223 | asking for the last epoch fails exactly when the log is unreadable and the cached length is wrong, and otherwise leaves the handle at the length of the file |
| WalTails.AppendKeepsOk | crates/tracedb-log/src/lib.rs:225-257 | an append leaves the file readable if and only if it was and the cached tail is not of the right length with a wrong checksum; every cell that looked since the truncation stays right |
| WalTails.TruncateKeepsOk | crates/tracedb-query/src/lib.rs:2306-2307 | a checkpoint's truncation makes the log readable again, whatever it was; of the cells only that of the checkpointing handle counts as having looked since |
| WalTails.CurrentCellsAreRight | crates/tracedb-log/src/lib.rs:232-236 | only a cell that last looked before the truncation can mislead, and not over an empty file |
| EngineClones.NextKeepsOk | crates/tracedb-query/src/lib.rs:2282-2311 | every clone, call, checkpoint, publication and reopening, over the bytes of the log and the cached tails that clones share, keeps: a handle that never adopted a manifest ahead of its records holds every commit up to its epoch, and one that did is short of some; the file scans to the commits since its truncation if and only if no frame was chained wrongly |
| EngineClones.EveryRunCounts | crates/tracedb-query/src/lib.rs:2282-2311 | in every run of clones a reopening counts every acknowledged commit if and only if the checkpoint in force was not last written by a handle that had adopted, and no frame was chained wrongly since the log was truncated |
| EngineClones.CheckpointKeepsAll | crates/tracedb-query/src/lib.rs:2282-2311 | exactly when one checkpoint leaves all counted: it heals an unreadable log by truncating it, and a refused one may rewrite the file in force |
| EngineClones.CallMisleads | crates/tracedb-log/src/lib.rs:225-257 | an acknowledged call makes the log unreadable if and only if its handle cached the file's length and another checksum than the last frame's, which takes a handle that adopted and a cell not refreshed since the truncation |
| EngineClones.CachedEpochIsEnough | crates/tracedb-query/src/lib.rs:2570-2589 | the staleness test decides by the cached tail as it would by the log itself |
| EngineClones.CurrentPublishersLoseNothing | crates/tracedb-query/src/lib.rs:2392-2454 | if no publication goes through a handle that is behind, every acknowledged commit stays counted |
| EngineClones.AdoptedCheckpointLosesCommit | crates/tracedb-query/src/lib.rs:2392-2454 | a run in which a clone publishes while behind and then checkpoints: an acknowledged commit is lost |
| EngineClones.MisledAppendEndsLog | crates/tracedb-log/src/lib.rs:225-257 | a run in which a clone publishes while behind and appends through the tail of a log since truncated, with frames of one length: three commits acknowledged, and never opened again, whatever is tried |
| EngineLog.EngineCommitsAreCommitted | crates/tracedb-query/src/lib.rs:1326-1353 | every commit the engine makes is one the log's reader accepts |
| EngineLog.LogHoldsCommits | crates/tracedb-log/src/lib.rs:544-678 | the bytes of a log of engine commits, cut anywhere, scan to a prefix of those commits; uncut, to all of them |
| EngineBytes.StepMatches | crates/tracedb-log/src/lib.rs:184-257 | every step of the engine over bytes keeps: the file is the engine's log frame by frame, torn exactly when the engine counts on a torn piece |
| EngineBytes.EveryByteRun | crates/tracedb-query/src/lib.rs:984-990 | over every run on bytes the engine is in a state its own steps reach, and scanning the file gives exactly the commits it takes for its log |
| Jobs.JobIdInjective | crates/tracedb-jobs/src/lib.rs:70-94 | a job id gives back its kind's name and its idempotency key |
| Jobs.LeaseTokenInjective | crates/tracedb-jobs/src/lib.rs:101-111 | a lease token gives back its job and its attempt number |
| Jobs.EventDoesWhatCallDid | crates/tracedb-jobs/src/lib.rs:187-240 | applying the event that a call logs does to the catalog what the call did |
| Jobs.ReplayRebuilds | crates/tracedb-query/src/lib.rs:1227-1353 | replaying the events of any run from any reachable catalog never errs and gives the live catalog field by field |
| Jobs.ReplayFromEmpty | crates/tracedb-jobs/src/lib.rs:176-318 | from an empty catalog every run is rebuilt, and every reachable catalog is in order: retryable jobs have attempts to spare, dead-lettered ones have none |
| Jobs.GrantReason | crates/tracedb-jobs/src/lib.rs:250-272 | a grant goes to a queued job, a retryable one or one whose lease ran out; a grant beyond the maximum is always of the last kind |
| Jobs.StaleTokenRejected | crates/tracedb-jobs/src/lib.rs:338-354 | heartbeat, complete and fail with the token of an earlier grant are rejected |
| Jobs.SupersededForGood | crates/tracedb-jobs/src/lib.rs:274-318 | and stay rejected after any further run |
| Jobs.TokensNeverRepeat | crates/tracedb-jobs/src/lib.rs:101-111 | over every run no lease token is granted twice to any job |
| Jobs.SuccessiveLeases | crates/tracedb-jobs/src/lib.rs:356-369 | between two successive leases of a job without a failure, the first lease's last expiry is at or before the time of the second |
| Jobs.JobCatalog.EnqueueJob | crates/tracedb-jobs/src/lib.rs:176-185 | enqueueing an existing key gives back the job that is there |
| Jobs.JobCatalog.LeaseNextAt | crates/tracedb-jobs/src/lib.rs:250-272 | the walk in key order leases the first leasable job of the kind |
| Jobs.JobCatalog.FindByToken | crates/tracedb-jobs/src/lib.rs:331-354 | the search by id accepts a missing or current token only |
| Jobs.JobCatalog.HeartbeatJob | crates/tracedb-jobs/src/lib.rs:274-284 | a heartbeat with the current token extends the lease; any other changes nothing |
| Jobs.JobCatalog.Complete | crates/tracedb-jobs/src/lib.rs:286-296 | complete changes exactly the job found, or nothing |
| Jobs.JobCatalog.Fail | crates/tracedb-jobs/src/lib.rs:298-318 | fail changes exactly the job found, or nothing |
| ObjectStore.ReadObserves | crates/tracedb-remote-storage/src/lib.rs:326-393 | a value read after an etag was seen may be acted on under that etag, even if the object changed in between |
| ObjectStore.WritesKeepObserved | crates/tracedb-remote-storage/src/lib.rs:326-393 | no later write or delete breaks such an observation |
| ManifestCas.StepIsAtomicSwap | crates/tracedb-remote-storage/src/lib.rs:326-393 | in every interleaving a successful swap replaces, at its put, a pointer of exactly the expected generation or creates the first; nothing else changes the pointer |
| ManifestCas.UndisturbedSwap | crates/tracedb-remote-storage/src/lib.rs:326-393 | a swap that nothing disturbs succeeds if and only if the pointer is what it expects |
| ManifestCas.NoSwapIsLost | crates/tracedb-remote-storage/src/lib.rs:326-393 | the successful swaps of every run form one chain from the first pointer to the last |
| ManifestCas.GenerationsClimbByOne | crates/tracedb-remote-storage/src/lib.rs:326-393 | if callers write expected+1, generations climb by one from the first swap, with or without a pointer at the start, so that the generation counts the successful swaps |
| ManifestCas.EveryRunIsAChain | crates/tracedb-remote-storage/src/lib.rs:326-393 | in every run from an object never written only the first successful swap expects none, each later one expects what the one before it wrote, and the pointer is what the last one wrote |
| RemoteLease.StepRefinesAtomicLease | crates/tracedb-remote-storage/src/lib.rs:396-501 | every step of any interleaving of head, clock, get and conditional put or delete is one step of an atomic lease or leaves it alone |
| RemoteLease.UndisturbedAcquire | crates/tracedb-remote-storage/src/lib.rs:397-434 | an undisturbed acquire is refused exactly while another holder's lease is unexpired, else granted with the next token until now plus the time to live |
| RemoteLease.UndisturbedRefresh | crates/tracedb-remote-storage/src/lib.rs:436-470 | an undisturbed refresh extends exactly the stored grant |
| RemoteLease.UndisturbedRelease | crates/tracedb-remote-storage/src/lib.rs:472-501 | an undisturbed release deletes exactly the stored grant |
| RemoteLease.LeaseIsExclusive | crates/tracedb-remote-storage/src/lib.rs:397-434 | at every step of every run, what commits while the stored lease is unexpired carries the stored holder |
| RemoteLease.OthersLeaveLeaseAlone | crates/tracedb-remote-storage/src/lib.rs:397-434 | until the stored expiry a run without effects of the holder has no effect at all |
| RemoteLease.TokenCountsAcquisitions | crates/tracedb-remote-storage/src/lib.rs:397-434 | within one object lifetime each committed acquire raises the token by exactly one and nothing else changes it |
| RemoteLease.StaleGrantCommitsNothing | crates/tracedb-remote-storage/src/lib.rs:436-501 | a refresh or release that commits carries the stored token |
| RemoteLease.SupersededIsFenced | crates/tracedb-remote-storage/src/lib.rs:436-501 | a token superseded in a lifetime commits no refresh or release again in it |
| RemoteLease.TokensUniqueIffNeverReacquired | crates/tracedb-remote-storage/src/lib.rs:397-501 | over every run fencing tokens are unique if and only if no acquire commits after a release |
| RemoteLease.ReleaseRestartsTokens | crates/tracedb-remote-storage/src/lib.rs:472-501 | a run, for any two holders, in which both lifetimes grant token 1 |
| Artifacts.IndexIdInjective | crates/tracedb-index/src/lib.rs:217-283 | an index id gives back its segment, kind and generation |
| Artifacts.PublishedIsBacked | crates/tracedb-query/src/lib.rs:2392-2515 | the manifest that a publication or compaction writes names only files that exist with the content it records |
| Artifacts.CompactionReplacesAll | crates/tracedb-query/src/lib.rs:2480-2508 | a compacted manifest names the new segment and its own indexes and nothing of what it replaces |
| Artifacts.StepKeepsInv | crates/tracedb-query/src/lib.rs:2370-2515 | every file operation of publish, compact, vacuum and commits by any handle, and a crash after any, keeps every named file and its content |
| Artifacts.EveryRunIsBacked | crates/tracedb-query/src/lib.rs:2370-2515 | in every run each segment and index file that the durable manifest names exists, holds the recorded segment and generation, each index was built from that very segment, and each segment has every index its records call for |
| Artifacts.FinishedVacuumIsExact | crates/tracedb-query/src/lib.rs:2370-2390 | a vacuum that gets to its end leaves exactly the referenced artifacts and no staged file |
| Artifacts.RepublishFindsObject | crates/tracedb-query/src/lib.rs:2407-2432 | publishing an id the manifest already names always finds the object in its recorded generation |
| Artifacts.WhatGetsSealed | crates/tracedb-segment/src/lib.rs:205-219 | a publication seals the records it was given if and only if no file of that name with other records was left behind |
| Artifacts.OrphanIsPublished | crates/tracedb-segment/src/lib.rs:205-219 | a run after which the durable manifest names a segment with the records of the publication that crashed |
| Artifacts.VacuumArtifactDir | crates/tracedb-query/src/lib.rs:4692-4714 | the loop removes exactly the staged and the unreferenced artifact files and counts them |
| LexicalCache.LexicalCorpusCache.Lookup | crates/tracedb-query/src/lib.rs:735-740 | a hit restamps its entry, a miss only advances the tick |
| LexicalCache.LexicalCorpusCache.Store | crates/tracedb-query/src/lib.rs:742-752 | insertion stamps and then evicts down to the capacity |
| LexicalCache.LexicalCorpusCache.Clear | crates/tracedb-query/src/lib.rs:754-757 | clearing empties the cache and restarts the tick |
| LexicalCache.LexicalCorpusCache.EvictLru | crates/tracedb-query/src/lib.rs:764-781 | the eviction loop removes the oldest stamp, then the least key, until the capacity holds |
| LexicalCache.LexicalCorpusCache.LeastRecent | crates/tracedb-query/src/lib.rs:766-777 | the scan finds the unique minimum by stamp and key |
| LexicalCache.HoldsVictim | crates/tracedb-query/src/lib.rs:764-781 | the eviction victim is the last slot of the move-to-front list |
| LexicalCache.EveryRunIsMoveToFront | crates/tracedb-query/src/lib.rs:734-782 | any get, insert and clear sequence before saturation, at any capacity, answers and ends like a move-to-front list cut to the capacity |
| LexicalCache.ListIsDetermined | crates/tracedb-query/src/lib.rs:734-782 | the cache determines that list |
| LexicalCache.TiedVictim | crates/tracedb-query/src/lib.rs:764-781 | among saturated stamps the victim is the last slot of the list if and only if its stamp is older or its key least |
| LexicalCache.MatchedStep | crates/tracedb-query/src/lib.rs:734-782 | every operation answers like the list; it goes on together if an eviction at the saturated tick takes the last slot of the list, and ends the agreement if not |
| LexicalCache.AgreesIffEvictionsMeet | crates/tracedb-query/src/lib.rs:734-782 | any sequence from the empty cache, through saturation, at any capacity: cache and list agree after every prefix if and only if every eviction at the saturated tick takes the last slot; then all answers agree |
| LexicalCache.SaturatedEvictsNewest | crates/tracedb-query/src/lib.rs:759-762 | a run from the empty cache, at the engine's capacity, after which the key just inserted is gone |
| Fusion.FuseRanked | crates/tracedb-query/src/lib.rs:2925-2958 | the nested loops compute the specified fusion |
| Fusion.FusionRanks | crates/tracedb-query/src/lib.rs:2925-2958 | every candidate id comes out once, with the sum of its reciprocal ranks less its largest penalty and its last score per channel, strictly ordered by score then id |
| Fusion.FusionConserves | crates/tracedb-query/src/lib.rs:2925-2958 | before penalties the rows add up to 1/(60+rank) over all candidates of all streams |
| Fusion.FusionIgnoresOrder | crates/tracedb-query/src/lib.rs:2925-2958 | the ranking, scores and penalties do not depend on the order of the streams |
| Fusion.PickIsPick | crates/tracedb-query/src/lib.rs:3019-3021 | which streams count as evidence and which as fallback |
| Fusion.FuseQueryStreams | crates/tracedb-query/src/lib.rs:2960-2986 | the two-stage fusion as it runs computes the specified rows |
| Fusion.FallbackOnlyAppends | crates/tracedb-query/src/lib.rs:2960-2986 | evidence rows lead exactly as if alone; after them come exactly the ids that only the fallback has, each once, in the order of the fallback ranking |
| Fusion.AddingFallbackKeepsEvidence | crates/tracedb-query/src/lib.rs:2960-2986 | adding fallback streams anywhere leaves the evidence rows, scores and order as they were |
| TextIndex.TokensAreNulFree | crates/tracedb-text/src/lib.rs:85-91 | no token contains the NUL that separates field and term |
| TextIndex.KeyDecodes | crates/tracedb-index/src/lib.rs:1295-1297 | a posting key gives back its field and its term |
| TextIndex.CountTerms | crates/tracedb-index/src/lib.rs:303-306 | the counting loop gives each term its multiplicity |
| TextIndex.AddField | crates/tracedb-index/src/lib.rs:307-316 | one field adds exactly one posting per distinct term, under that term's key |
| TextIndex.AddRecord | crates/tracedb-index/src/lib.rs:295-323 | one record extends an exact index to an exact index |
| TextIndex.BuildTextIndex | crates/tracedb-index/src/lib.rs:285-340 | the artifact is the exact inverted index of the tokenised records: right frequency, length and order, nothing missing or extra |
| TextScore.PostingsCount | crates/tracedb-index/src/lib.rs:307-316 | a term has as many postings as records whose field holds it |
| TextScore.PostingsAreHeld | crates/tracedb-index/src/lib.rs:307-316 | every posting is a record's own frequency and length |
| TextScore.HeldHasPosting | crates/tracedb-index/src/lib.rs:307-316 | every record that holds the term has a posting |
| TextScore.Bm25FromTermFrequency | crates/tracedb-index/src/lib.rs:1303-1326 | the loop over query terms sums their gains, repeats counted |
| TextScore.Bm25IsPositive | crates/tracedb-index/src/lib.rs:1303-1326 | a record scores above zero as soon as it holds one query term |
| TextScore.GatherTerm | crates/tracedb-index/src/lib.rs:362-375 | one term's postings in one field are recorded under their records, with its document frequency |
| TextScore.Gather | crates/tracedb-index/src/lib.rs:361-376 | over all fields: every posting of a query term is recorded, nothing else is, and document frequencies never exceed the number of documents |
| TextScore.ScoreText | crates/tracedb-index/src/lib.rs:343-393 | a query over one field or all returns the ids of exactly the records that hold a query term there, each once, by score then id; for one field and distinct ids the score is the relevance computed from the records themselves |
| Keeper.BranchWalService.CommitInMemory | crates/tracedb-keeper/src/lib.rs:67-91 | the in-place commit computes the specified state and acknowledgement |
| Keeper.SharedKeyIffRelated | crates/tracedb-keeper/src/lib.rs:106-108 | two branch ids can share a key if and only if one, with the separator after it, begins the other |
| Keeper.KeyInjective | crates/tracedb-keeper/src/lib.rs:106-108 | a key tells unrelated branches apart, and the idempotency keys of one branch |
| Keeper.SeparatorFreeIsUnrelated | crates/tracedb-keeper/src/lib.rs:106-108 | different ids without the separator are unrelated |
| Keeper.CommitKeepsOk | crates/tracedb-keeper/src/lib.rs:67-91 | every commit keeps each branch numbered 1..n and each (branch, key) logged once with its acknowledgement |
| Keeper.CommitIsIdempotentAppend | crates/tracedb-keeper/src/lib.rs:67-91 | in terms of the log alone, a repeat returns the first acknowledgement and changes nothing and anything else is appended with the branch's next number, if and only if the key is not taken by another branch |
| Keeper.SafeIffUnrelated | crates/tracedb-keeper/src/lib.rs:67-108 | that holds after every history over a set of branch ids if and only if no two of them are related |
| Keeper.RelatedLosesCommit | crates/tracedb-keeper/src/lib.rs:67-108 | for every related pair, requests of which the second is dropped |
| Keeper.SeparatorInBranchLosesCommit | crates/tracedb-keeper/src/lib.rs:106-108 | an instance: the ids a and a followed by the separator |
| Keeper.StepKeepsInv | crates/tracedb-keeper/src/lib.rs:152-169 | every file-system step of a persist, and a crash that tears or undoes what was not synced, keeps the invariant |
| Keeper.UndisturbedCommit | crates/tracedb-keeper/src/lib.rs:67-104 | an undisturbed new commit ends acknowledged, in memory and whole on disk, and durable exactly if there is a directory to sync |
| Keeper.CrashLeavesOldOrNew | crates/tracedb-keeper/src/lib.rs:152-169 | a crash in the middle of a call leaves the state before it or after it, whole; without a directory to sync possibly the last durable one |
| Keeper.EveryRunReopens | crates/tracedb-keeper/src/lib.rs:55-104 | over every run opening succeeds with a log in order, and with a directory to sync it holds every acknowledged commit |
| Keeper.UnsyncedRenameLosesAck | crates/tracedb-keeper/src/lib.rs:171-174 | without a directory part an acknowledged commit can be undone by a crash |
| Keeper.AcksSurviveIffParent | crates/tracedb-keeper/src/lib.rs:152-174 | acknowledged commits survive every run if and only if the path has a directory part |

## Left out

- Encryption, HMAC cursor signing, SHA-256, serde and bincode: the log's serialisation is an abstract pair with a left inverse and its checksum an abstract 32-byte function; other files hold values.
- The record store beyond what decides whether it takes a write: of each record the last version's fields, feature names and tombstone are modelled, earlier versions, reads at past epochs and the state of a feature are not.
- Segment payloads and vector arithmetic: a segment's records are an opaque snapshot, and cosine similarity is an arbitrary function to an optional real (no NaN, no rounding).
- The hash that assigns HNSW levels: the level of a key is an arbitrary parameter, so the results hold for every assignment; keys are distinct within a field.
- Floating-point rounding in fusion and text scoring: both are over the reals, and the logarithm is any function that is positive above 1.
- Fields of more than 33 vectors whose ground level is not connected: the search may miss there; only soundness, fallback and the connected case are proved.
- The score values of text queries over all fields: later fields overwrite earlier counts in the code, so only which records come back is proved there.
- Whether a cached lexical corpus scores like a fresh one: the cache key omits the actor; only the replacement policy is proved. The six-part cache key is one string, whose order matters only at the saturated tick.
- Reopening through the `.bak` manifest, and going on in the same process after a failed partial write or a failed persist: the code does not keep the properties there.
- Legacy checkpoint formats, the redundant job catalog file, backup, snapshot and restore by directory copy.
- Several engine handles at once with a crash between their I/O actions: `Engine` has one handle with crashes anywhere, `EngineClones` several clones of one process whose calls run one at a time and to their end. A second process cannot open the directory while the lock is held. `WalRuns` has several handles of one process, `Artifacts` several of any.
- Whether the records a stale clone replays or serves are current: `EngineClones` decides which commits are counted, not what queries through a stale handle return.
- A log handle in a second process that outlives a crash inside an append: it would append behind the torn piece, which only opening truncates.
- Overflow at 2^64: an overflowing LSN reads as a refusal in the log, and engine epochs, generations, keeper epochs, the lease's fencing token plus one and its expiry of now plus the time to live are unbounded.
- Job fields `artifact_path` and `artifact_checksum`, which no catalog operation changes, and wall-clock timing fields.
- `Artifacts` lets a stale handle take over the durable manifest, where the engine's handle meets its own lock: its runs include more than the code's.
- Segment states other than published, which no operation creates, and segment ids with a path separator in them.
- Object stores with weak or reused etags, and clocks that run backwards: etags are strong and never reused for a key (section 8.8.1 of RFC 9110), the clock is shared and non-decreasing.
- Query planning, policy filtering, TraceQL, GraphQL and SQL-like text, cursors, the command line, servers and scripts: little state, or meaning that rests on code outside the repository.
