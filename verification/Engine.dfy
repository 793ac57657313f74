/** Crash recovery of the engine: commits, checkpoints and reopening over one directory
    (crates/tracedb-query/src/lib.rs). The log file is the sequence of its whole frames,
    as `EngineLog` justifies; the record store is the sequence of commits it was given. */
module Engine {
  import opened Ordering
  import Jobs
  import opened Schemas
  import opened Records

  datatype IdempotencyReceipt = IdempotencyReceipt(key: string, response: string)

  datatype Changes = Changes(schemas: seq<TableSchema>, receipts: seq<IdempotencyReceipt>,
                             jobEvents: seq<Jobs.JobEvent>, writes: Writes)

  datatype Commit = Commit(epoch: nat, changes: Changes)

  datatype Manifest = Manifest(latestEpoch: nat, checkpointEpoch: nat, generation: nat, schemas: seq<TableSchema>)

  /** `store` lists the commits the records were built from, `records` is what they built. */
  datatype Checkpoint = Checkpoint(epoch: nat, schemas: seq<TableSchema>, store: seq<Commit>, records: Store,
                                   receipts: seq<IdempotencyReceipt>, jobs: Jobs.Catalog)

  /** What survives a crash. `torn` says that a piece of a frame follows the whole ones. */
  datatype Disk = Disk(manifest: Manifest, wal: seq<Commit>, torn: bool, checkpoints: map<nat, Checkpoint>)

  datatype Memory = Memory(manifest: Manifest, store: seq<Commit>, records: Store,
                           receipts: seq<IdempotencyReceipt>, jobs: Jobs.Catalog)

  // ---------------------------------------------------------------- what commits add up to

  function AllSchemas(cs: seq<Commit>): seq<TableSchema>
  {
    if cs == [] then [] else cs[0].changes.schemas + AllSchemas(cs[1..])
  }

  function AllReceipts(cs: seq<Commit>): seq<IdempotencyReceipt>
  {
    if cs == [] then [] else cs[0].changes.receipts + AllReceipts(cs[1..])
  }

  function AllEvents(cs: seq<Commit>): seq<Jobs.JobEvent>
  {
    if cs == [] then [] else cs[0].changes.jobEvents + AllEvents(cs[1..])
  }

  lemma {:induction false} SchemasSplit(a: seq<Commit>, b: seq<Commit>)
    ensures AllSchemas(a + b) == AllSchemas(a) + AllSchemas(b)
    decreases |a|
  {
    if a == [] {
      assert a + b == b;
    } else {
      assert (a + b)[1..] == a[1..] + b;
      SchemasSplit(a[1..], b);
    }
  }

  lemma {:induction false} ReceiptsSplit(a: seq<Commit>, b: seq<Commit>)
    ensures AllReceipts(a + b) == AllReceipts(a) + AllReceipts(b)
    decreases |a|
  {
    if a == [] {
      assert a + b == b;
    } else {
      assert (a + b)[1..] == a[1..] + b;
      ReceiptsSplit(a[1..], b);
    }
  }

  lemma {:induction false} EventsSplit(a: seq<Commit>, b: seq<Commit>)
    ensures AllEvents(a + b) == AllEvents(a) + AllEvents(b)
    decreases |a|
  {
    if a == [] {
      assert a + b == b;
    } else {
      assert (a + b)[1..] == a[1..] + b;
      EventsSplit(a[1..], b);
    }
  }

  lemma AllSplit(a: seq<Commit>, b: seq<Commit>)
    ensures AllSchemas(a + b) == AllSchemas(a) + AllSchemas(b)
    ensures AllReceipts(a + b) == AllReceipts(a) + AllReceipts(b)
    ensures AllEvents(a + b) == AllEvents(a) + AllEvents(b)
  {
    SchemasSplit(a, b);
    ReceiptsSplit(a, b);
    EventsSplit(a, b);
  }

  lemma {:induction false} ReplaySplit(jobs: Jobs.Catalog, a: seq<Jobs.JobEvent>, b: seq<Jobs.JobEvent>)
    ensures Jobs.Replay(jobs, a + b) ==
            if Jobs.Replay(jobs, a).None? then None else Jobs.Replay(Jobs.Replay(jobs, a).value, b)
    decreases |a|
  {
    hide Jobs.ApplyEvent;
    if a == [] {
      assert a + b == b;
    } else {
      assert (a + b)[1..] == a[1..] + b;
      var next := Jobs.ApplyEvent(jobs, a[0]);
      if next.Some? { ReplaySplit(next.value, a[1..], b); }
    }
  }

  // ---------------------------------------------------------------- calls

  datatype Call =
    | ApplySchema(schema: TableSchema, schemaReceipts: seq<IdempotencyReceipt>)
    | WriteRecords(write: Write, writeReceipts: seq<IdempotencyReceipt>)
    | RecordReceipt(receipt: IdempotencyReceipt)
    | JobCall(op: Jobs.Op)

  /** What an accepted call commits, and the job catalog and records it leaves. */
  datatype Planned = Planned(changes: Changes, jobs: Jobs.Catalog, records: Store)

  /** `None` when the call is rejected or commits nothing. Records are checked under the
      schemas of the moment, a schema against the records of the moment. */
  function PlanCall(m: Memory, call: Call): Option<Planned>
  {
    match call
    case ApplySchema(schema, receipts) =>
      if !ValidSchema(schema) || !Compatible(m.manifest.schemas, m.records, schema) then None
      else Some(Planned(Changes([schema], receipts, [], NoWrites), m.jobs, m.records))
    case WriteRecords(write, receipts) =>
      var p := Records.Plan(m.manifest.schemas, m.records, write);
      if p.None? then None else Some(Planned(Changes([], receipts, [], p.value.0), m.jobs, p.value.1))
    case RecordReceipt(receipt) => Some(Planned(Changes([], [receipt], [], NoWrites), m.jobs, m.records))
    case JobCall(op) =>
      var p := Jobs.Plan(m.jobs, op);
      if p.None? then None else Some(Planned(Changes([], [], [p.value.1], NoWrites), p.value.0, m.records))
  }

  function NextCommit(m: Memory, changes: Changes): Commit
  {
    Commit(m.manifest.latestEpoch + 1, changes)
  }

  function UpsertChange(schemas: seq<TableSchema>, changes: Changes): seq<TableSchema>
  {
    Upserts(schemas, changes.schemas)
  }

  /** The in-memory part of a commit, manifest included. */
  function Applied(m: Memory, c: Commit, p: Planned): Memory
  {
    Memory(m.manifest.(latestEpoch := c.epoch, generation := m.manifest.generation + 1,
                       schemas := UpsertChange(m.manifest.schemas, c.changes)),
           m.store + [c], p.records, m.receipts + c.changes.receipts, p.jobs)
  }

  function SnapshotOf(m: Memory): Checkpoint
  {
    Checkpoint(m.manifest.latestEpoch, m.manifest.schemas, m.store, m.records, m.receipts, m.jobs)
  }

  // ---------------------------------------------------------------- reopening

  function Since(cs: seq<Commit>, epoch: nat): seq<Commit>
  {
    if cs == [] then [] else (if cs[0].epoch > epoch then [cs[0]] else []) + Since(cs[1..], epoch)
  }

  function WritesOf(cs: seq<Commit>): (ws: seq<Writes>)
    ensures |ws| == |cs| && forall i | 0 <= i < |cs| :: ws[i] == cs[i].changes.writes
  {
    seq(|cs|, i requires 0 <= i < |cs| => cs[i].changes.writes)
  }

  const NoCheckpoint := Checkpoint(0, [], [], map[], [], map[])

  /** The checkpoint the manifest names. */
  function BaseCheckpoint(d: Disk): Checkpoint
  {
    var ck := d.manifest.checkpointEpoch;
    if ck > 0 && ck in d.checkpoints then d.checkpoints[ck] else NoCheckpoint
  }

  predicate CheckpointFound(d: Disk)
  {
    var ck := d.manifest.checkpointEpoch;
    ck <= d.manifest.latestEpoch && (ck > 0 ==> ck in d.checkpoints && d.checkpoints[ck].epoch == ck)
  }

  function Levelled(man: Manifest, commits: seq<Commit>): Manifest
  {
    var last := if commits == [] then 0 else commits[|commits| - 1].epoch;
    if last > man.latestEpoch then man.(latestEpoch := last, generation := man.generation + 1) else man
  }

  /** All logged writes are replayed under the schemas as they are after the last commit. */
  function Assemble(man: Manifest, base: Checkpoint, commits: seq<Commit>): Option<Memory>
  {
    var schemas := Upserts(if man.schemas == [] then base.schemas else man.schemas, AllSchemas(commits));
    var jobs := Jobs.Replay(base.jobs, AllEvents(commits));
    var records := ApplyAll(schemas, base.records, WritesOf(commits));
    if jobs.None? || records.None? then None else
    Some(Memory(Levelled(man.(schemas := schemas), commits), base.store + commits, records.value,
                base.receipts + AllReceipts(commits), jobs.value))
  }

  /** What reopening makes of the disk: checkpoint, then the log past it; `None` is an error. */
  function Recover(d: Disk): Option<Memory>
  {
    if !CheckpointFound(d) then None
    else Assemble(d.manifest, BaseCheckpoint(d), Since(d.wal, d.manifest.checkpointEpoch))
  }

  // ---------------------------------------------------------------- steps

  /** Where the running process is between two I/O actions. */
  datatype Pc =
    | Down
    | LogOpened                                   // torn tail truncated
    | ManifestRecovered(recovered: Memory)
    | Idle
    | Logged(commit: Commit, planned: Planned)    // frame appended and synced
    | InMemory(commit: Commit)                    // applied, manifest not yet renamed
    | Durable(commit: Commit)                     // manifest renamed, call not yet returned
    | CheckpointWritten
    | CheckpointManifest(manifest: Manifest)
    | LogTruncated(manifest: Manifest)

  /** `hist` is the history of commits whose frame reached the log whole, `acks` those whose
      call returned, `interrupted` the epochs of those whose call never did. */
  datatype State = State(disk: Disk, mem: Memory, pc: Pc, hist: seq<Commit>, acks: seq<Commit>, interrupted: seq<nat>)

  datatype Action =
    | OpenLog | RecoverManifest | FinishOpen
    | LogCommit(call: Call)
    | CrashInAppend(torn: Call, whole: bool)  // the process dies inside the append
    | ApplyInMemory | RenameManifest | Return
    | WriteCheckpoint | RenameCheckpointManifest | TruncateLog | FinishCheckpoint
    | Crash

  const NoMemory := Memory(Manifest(0, 0, 0, []), [], map[], [], map[])

  function Start(): State
  {
    State(Disk(Manifest(0, 0, 1, []), [], false, map[]), NoMemory, Down, [], [], [])
  }

  /** A crash loses the memory; a commit logged but not returned is interrupted. */
  function Crashed(s: State): State
  {
    var lost := if s.pc.Logged? || s.pc.InMemory? || s.pc.Durable? then [|s.hist|] else [];
    s.(mem := NoMemory, pc := Down, interrupted := s.interrupted + lost)
  }

  /** One step; an action that does not apply leaves the state as it is. */
  function Step(s: State, a: Action): State
  {
    match a
    case OpenLog =>
      if !s.pc.Down? then s else s.(disk := s.disk.(torn := false), pc := LogOpened)
    case RecoverManifest =>
      if !s.pc.LogOpened? then s else
      (match Recover(s.disk)
       case None => s.(pc := Down)
       case Some(m) =>
         s.(disk := if m.manifest.latestEpoch <= s.disk.manifest.latestEpoch then s.disk
                    else s.disk.(manifest := m.manifest),
            pc := ManifestRecovered(m)))
    case FinishOpen =>
      if !s.pc.ManifestRecovered? then s else s.(mem := s.pc.recovered, pc := Idle)
    case LogCommit(call) =>
      if !s.pc.Idle? then s else
      (match PlanCall(s.mem, call)
       case None => s
       case Some(p) =>
         var c := NextCommit(s.mem, p.changes);
         s.(disk := s.disk.(wal := s.disk.wal + [c]), hist := s.hist + [c], pc := Logged(c, p)))
    case CrashInAppend(call, whole) =>
      if !s.pc.Idle? || PlanCall(s.mem, call).None? then s else
      var c := NextCommit(s.mem, PlanCall(s.mem, call).value.changes);
      if whole then
        s.(disk := s.disk.(wal := s.disk.wal + [c]), hist := s.hist + [c],
           mem := NoMemory, pc := Down, interrupted := s.interrupted + [|s.hist| + 1])
      else s.(disk := s.disk.(torn := true), mem := NoMemory, pc := Down)
    case ApplyInMemory =>
      if !s.pc.Logged? then s else s.(mem := Applied(s.mem, s.pc.commit, s.pc.planned), pc := InMemory(s.pc.commit))
    case RenameManifest =>
      if !s.pc.InMemory? then s else s.(disk := s.disk.(manifest := s.mem.manifest), pc := Durable(s.pc.commit))
    case Return =>
      if !s.pc.Durable? then s else s.(acks := s.acks + [s.pc.commit], pc := Idle)
    case WriteCheckpoint =>
      if !s.pc.Idle? then s else
      s.(disk := s.disk.(checkpoints := s.disk.checkpoints[s.mem.manifest.latestEpoch := SnapshotOf(s.mem)]),
         pc := CheckpointWritten)
    case RenameCheckpointManifest =>
      if !s.pc.CheckpointWritten? then s else
      var epoch, man := s.mem.manifest.latestEpoch, s.disk.manifest;
      if man.latestEpoch != epoch then s.(pc := Idle) else
      var next := man.(checkpointEpoch := epoch, generation := man.generation + 1);
      s.(disk := s.disk.(manifest := next), pc := CheckpointManifest(next))
    case TruncateLog =>
      if !s.pc.CheckpointManifest? then s
      else s.(disk := s.disk.(wal := [], torn := false), pc := LogTruncated(s.pc.manifest))
    case FinishCheckpoint =>
      if !s.pc.LogTruncated? then s else s.(mem := s.mem.(manifest := s.pc.manifest), pc := Idle)
    case Crash => Crashed(s)
  }

  function Run(s: State, actions: seq<Action>): State
    decreases |actions|
  {
    if actions == [] then s else Run(Step(s, actions[0]), actions[1..])
  }

  // ---------------------------------------------------------------- invariant

  /** The i-th commit of the history has epoch i + 1. */
  ghost predicate Numbered(hist: seq<Commit>)
  {
    forall i | 0 <= i < |hist| :: hist[i].epoch == i + 1
  }

  ghost predicate JobsHold(jobs: Jobs.Catalog, hist: seq<Commit>)
  {
    Jobs.CatalogOk(jobs) && Jobs.Replay(map[], AllEvents(hist)) == Some(jobs)
  }

  function SchemasOf(hist: seq<Commit>): seq<TableSchema>
  {
    Upserts([], AllSchemas(hist))
  }

  /** The memory is what the whole history adds up to. */
  ghost predicate MemoryHolds(m: Memory, hist: seq<Commit>)
  {
    && m.store == hist && m.receipts == AllReceipts(hist) && JobsHold(m.jobs, hist)
    && m.manifest.schemas == SchemasOf(hist) && m.manifest.latestEpoch == |hist|
  }

  ghost predicate CheckpointHolds(c: Checkpoint, hist: seq<Commit>)
  {
    && c.epoch == |hist| && c.store == hist && c.receipts == AllReceipts(hist) && JobsHold(c.jobs, hist)
    && c.schemas == SchemasOf(hist)
  }

  /** The manifest is at most one commit behind the log; every checkpoint is exact; the log
      holds at least everything past the manifest's checkpoint. */
  ghost predicate DiskHolds(d: Disk, hist: seq<Commit>)
  {
    var man, first := d.manifest, |hist| - |d.wal|;
    && man.checkpointEpoch <= man.latestEpoch <= |hist| <= man.latestEpoch + 1
    && man.schemas == SchemasOf(hist[..man.latestEpoch])
    && 0 <= first <= man.checkpointEpoch && d.wal == hist[first..]
    && (man.checkpointEpoch > 0 ==> man.checkpointEpoch in d.checkpoints)
    && (forall e | e in d.checkpoints :: e <= |hist| && CheckpointHolds(d.checkpoints[e], hist[..e]))
  }

  ghost predicate PcHolds(s: State)
  {
    var n := |s.hist|;
    match s.pc
    case Down => true
    case LogOpened => !s.disk.torn
    case ManifestRecovered(m) => !s.disk.torn && MemoryHolds(m, s.hist) && m.manifest == s.disk.manifest
    case Idle => !s.disk.torn && MemoryHolds(s.mem, s.hist) && s.mem.manifest == s.disk.manifest
    case Logged(c, p) =>
      && !s.disk.torn && n > 0 && c == s.hist[n - 1] && MemoryHolds(s.mem, s.hist[..n - 1])
      && s.mem.manifest == s.disk.manifest && JobsHold(p.jobs, s.hist)
    case InMemory(c) =>
      && !s.disk.torn && n > 0 && c == s.hist[n - 1] && MemoryHolds(s.mem, s.hist)
      && s.mem.manifest.checkpointEpoch == s.disk.manifest.checkpointEpoch && s.disk.manifest.latestEpoch == n - 1
    case Durable(c) =>
      && !s.disk.torn && n > 0 && c == s.hist[n - 1] && MemoryHolds(s.mem, s.hist)
      && s.mem.manifest == s.disk.manifest
    case CheckpointWritten =>
      !s.disk.torn && MemoryHolds(s.mem, s.hist) && s.mem.manifest == s.disk.manifest && n in s.disk.checkpoints
    case CheckpointManifest(man) =>
      && !s.disk.torn && MemoryHolds(s.mem, s.hist) && man == s.disk.manifest
      && man.latestEpoch == man.checkpointEpoch == n
    case LogTruncated(man) =>
      !s.disk.torn && MemoryHolds(s.mem, s.hist) && man == s.disk.manifest && man.latestEpoch == n && s.disk.wal == []
  }

  /** Every epoch of the history is acknowledged, interrupted, or the one in flight. */
  ghost predicate Accounted(s: State)
  {
    var inFlight := s.pc.Logged? || s.pc.InMemory? || s.pc.Durable?;
    && (forall i | 0 <= i < |s.acks| :: 1 <= s.acks[i].epoch <= |s.hist| && s.acks[i] == s.hist[s.acks[i].epoch - 1])
    && (forall i, j | 0 <= i < j < |s.acks| :: s.acks[i].epoch < s.acks[j].epoch)
    && (forall i | 0 <= i < |s.interrupted| :: 1 <= s.interrupted[i] <= |s.hist|)
    && (inFlight ==> |s.hist| > 0 && |s.hist| !in s.interrupted && s.hist[|s.hist| - 1] !in s.acks)
    && (forall n | 1 <= n <= if inFlight then |s.hist| - 1 else |s.hist| ::
          n in s.interrupted <==> s.hist[n - 1] !in s.acks)
  }

  /** Some live catalog belongs to every reachable history. */
  ghost predicate HasJobs(hist: seq<Commit>)
  {
    exists jobs :: JobsHold(jobs, hist)
  }

  ghost predicate Inv(s: State)
  {
    Numbered(s.hist) && HasJobs(s.hist) && DiskHolds(s.disk, s.hist) && PcHolds(s) && Accounted(s)
  }

  // ---------------------------------------------------------------- recovery is exact

  lemma {:induction false} SinceIsSuffix(hist: seq<Commit>, first: nat, epoch: nat)
    requires Numbered(hist) && first <= epoch <= |hist|
    ensures Since(hist[first..], epoch) == hist[epoch..]
    decreases |hist| - first
  {
    if first < |hist| {
      assert hist[first..][1..] == hist[first + 1..];
      if first == epoch {
        SinceAll(hist, first, epoch);
      } else {
        SinceIsSuffix(hist, first + 1, epoch);
      }
    }
  }

  lemma {:induction false} SinceAll(hist: seq<Commit>, first: nat, epoch: nat)
    requires Numbered(hist) && epoch <= first <= |hist|
    ensures Since(hist[first..], epoch) == hist[first..]
    decreases |hist| - first
  {
    if first < |hist| {
      assert hist[first..][1..] == hist[first + 1..];
      SinceAll(hist, first + 1, epoch);
    }
  }

  /** Replaying the log past a checkpoint over a manifest that already holds a prefix of
      its schema changes gives the schemas of the whole history, in the same order. */
  lemma SchemasReplay(hist: seq<Commit>, ck: nat, latest: nat)
    requires ck <= latest <= |hist|
    ensures Upserts(SchemasOf(hist[..latest]), AllSchemas(hist[ck..])) == SchemasOf(hist)
    ensures SchemasOf(hist[..latest]) == [] ==> SchemasOf(hist[..ck]) == []
  {
    var a, b, c := hist[..ck], hist[ck..latest], hist[latest..];
    assert hist[..latest] == a + b && hist[ck..] == b + c && hist == a + b + c;
    AllSplit(a, b);
    AllSplit(b, c);
    AllSplit(a + b, c);
    ReplayOverPrefix(AllSchemas(a), AllSchemas(b), AllSchemas(c));
    UpsertsSplit([], AllSchemas(a), AllSchemas(b));
    NeverShrinks(SchemasOf(a), AllSchemas(b));
  }

  lemma {:induction false} NeverShrinks(schemas: seq<TableSchema>, changes: seq<TableSchema>)
    ensures |Upserts(schemas, changes)| >= |schemas|
    decreases |changes|
  {
    if changes != [] {
      UpsertAtPlace(schemas, changes[0]);
      NeverShrinks(Upsert(schemas, changes[0]), changes[1..]);
    }
  }

  lemma {:induction false} NoCommits()
    ensures AllSchemas([]) == [] && AllReceipts([]) == [] && AllEvents([]) == [] && SchemasOf([]) == []
    ensures JobsHold(map[], [])
  {
  }

  /** Jobs and receipts rebuilt from a checkpoint and the log past it. */
  lemma JobsReplay(hist: seq<Commit>, ck: nat, jobs: Jobs.Catalog, live: Jobs.Catalog)
    requires ck <= |hist| && JobsHold(jobs, hist[..ck]) && JobsHold(live, hist)
    ensures Jobs.Replay(jobs, AllEvents(hist[ck..])) == Some(live)
    ensures AllReceipts(hist[..ck]) + AllReceipts(hist[ck..]) == AllReceipts(hist)
  {
    hide Jobs.Replay, Jobs.CatalogOk;
    assert hist == hist[..ck] + hist[ck..];
    AllSplit(hist[..ck], hist[ck..]);
    ReplaySplit(map[], AllEvents(hist[..ck]), AllEvents(hist[ck..]));
  }

  function Base(d: Disk): Store
  {
    BaseCheckpoint(d).records
  }

  /** The commits past the manifest's checkpoint. */
  function Past(d: Disk, hist: seq<Commit>): seq<Commit>
  {
    if d.manifest.checkpointEpoch <= |hist| then hist[d.manifest.checkpointEpoch..] else []
  }

  /** The records that the writes past the checkpoint build under the final schemas; `None`
      when one of those writes is refused there. */
  function Rebuilt(d: Disk, hist: seq<Commit>): Option<Store>
  {
    ApplyAll(SchemasOf(hist), Base(d), WritesOf(Past(d, hist)))
  }

  /** What the pieces of a reopening come to. */
  lemma RecoveredParts(d: Disk, hist: seq<Commit>) returns (live: Jobs.Catalog)
    requires Numbered(hist) && DiskHolds(d, hist) && HasJobs(hist)
    ensures var man, base, cs := d.manifest, BaseCheckpoint(d), Past(d, hist);
            && JobsHold(live, hist) && Since(d.wal, man.checkpointEpoch) == cs
            && (man.checkpointEpoch > 0 ==> base.epoch == man.checkpointEpoch)
            && Upserts(if man.schemas == [] then base.schemas else man.schemas, AllSchemas(cs)) == SchemasOf(hist)
            && Jobs.Replay(base.jobs, AllEvents(cs)) == Some(live)
            && base.receipts + AllReceipts(cs) == AllReceipts(hist) && base.store + cs == hist
  {
    hide AllSchemas, AllReceipts, AllEvents, Jobs.Replay, Jobs.CatalogOk, Upserts, Since;
    var man, ck, n := d.manifest, d.manifest.checkpointEpoch, |hist|;
    SinceIsSuffix(hist, n - |d.wal|, ck);
    SchemasReplay(hist, ck, man.latestEpoch);
    live :| JobsHold(live, hist);
    assert hist[..0] == [];
    NoCommits();
    var base := BaseCheckpoint(d);
    assert CheckpointHolds(base, hist[..ck]);
    JobsReplay(hist, ck, base.jobs, live);
    assert hist[..ck] + hist[ck..] == hist;
  }

  /** Reopening a disk that holds a history succeeds if and only if every write logged past
      the checkpoint is accepted under the final schemas; then it rebuilds exactly what the
      history adds up to, each commit counted once, whatever the crash left behind. */
  lemma RecoveryIsExact(d: Disk, hist: seq<Commit>)
    requires Numbered(hist) && DiskHolds(d, hist) && HasJobs(hist)
    ensures var r := Recover(d);
            && (r.Some? <==> Rebuilt(d, hist).Some?)
            && (r.Some? ==>
                  && MemoryHolds(r.value, hist) && Rebuilt(d, hist) == Some(r.value.records)
                  && (d.manifest.latestEpoch == |hist| ==> r.value.manifest == d.manifest)
                  && (d.manifest.latestEpoch < |hist| ==>
                        r.value.manifest.checkpointEpoch == d.manifest.checkpointEpoch))
  {
    hide DiskHolds, HasJobs, Numbered, Past, Since, SchemasOf, Assemble, MemoryHolds, CheckpointFound, BaseCheckpoint;
    var live := RecoveredParts(d, hist);
    HasCheckpoint(d, hist);
    if d.manifest.latestEpoch == |hist| { LevelManifest(d, hist); }
    LastPast(d, hist);
    AssembledHolds(d.manifest, BaseCheckpoint(d), Past(d, hist), hist, live);
  }

  lemma AssembledHolds(man: Manifest, base: Checkpoint, cs: seq<Commit>, hist: seq<Commit>, live: Jobs.Catalog)
    requires JobsHold(live, hist) && man.latestEpoch <= |hist|
    requires Upserts(if man.schemas == [] then base.schemas else man.schemas, AllSchemas(cs)) == SchemasOf(hist)
    requires Jobs.Replay(base.jobs, AllEvents(cs)) == Some(live)
    requires base.receipts + AllReceipts(cs) == AllReceipts(hist) && base.store + cs == hist
    requires man.latestEpoch == |hist| ==> man.schemas == SchemasOf(hist)
    requires if cs == [] then man.latestEpoch == |hist| else cs[|cs| - 1].epoch == |hist|
    ensures var r, records := Assemble(man, base, cs), ApplyAll(SchemasOf(hist), base.records, WritesOf(cs));
            && (r.Some? <==> records.Some?)
            && (r.Some? ==>
                  && MemoryHolds(r.value, hist) && records == Some(r.value.records)
                  && (man.latestEpoch == |hist| ==> r.value.manifest == man)
                  && (man.latestEpoch < |hist| ==> r.value.manifest.checkpointEpoch == man.checkpointEpoch))
  {
    hide AllSchemas, AllReceipts, AllEvents, Jobs.Replay, JobsHold, Upserts, ApplyAll, SchemasOf, WritesOf;
  }

  lemma HasCheckpoint(d: Disk, hist: seq<Commit>)
    requires DiskHolds(d, hist)
    ensures var man := d.manifest;
            man.checkpointEpoch <= man.latestEpoch <= |hist| <= man.latestEpoch + 1 && CheckpointFound(d)
  {
    hide SchemasOf, JobsHold;
  }

  lemma LastPast(d: Disk, hist: seq<Commit>)
    requires Numbered(hist) && DiskHolds(d, hist)
    ensures var cs := Past(d, hist);
            if cs == [] then d.manifest.latestEpoch == |hist| else cs[|cs| - 1].epoch == |hist|
  {
    hide SchemasOf, CheckpointHolds;
  }

  // ---------------------------------------------------------------- every step keeps the invariant

  lemma JustOne(c: Commit)
    ensures AllSchemas([c]) == c.changes.schemas && AllReceipts([c]) == c.changes.receipts &&
            AllEvents([c]) == c.changes.jobEvents
  {
    assert [c][1..] == [];
    assert c.changes.schemas + [] == c.changes.schemas;
    assert c.changes.receipts + [] == c.changes.receipts;
    assert c.changes.jobEvents + [] == c.changes.jobEvents;
  }

  lemma JobsExtend(jobs: Jobs.Catalog, hist: seq<Commit>, c: Commit, next: Jobs.Catalog)
    requires JobsHold(jobs, hist) && Jobs.Replay(jobs, c.changes.jobEvents) == Some(next) && Jobs.CatalogOk(next)
    ensures JobsHold(next, hist + [c])
  {
    hide Jobs.Replay, Jobs.CatalogOk;
    AllSplit(hist, [c]);
    JustOne(c);
    ReplaySplit(map[], AllEvents(hist), c.changes.jobEvents);
  }

  /** Logging a planned commit extends the history. */
  lemma PlannedExtends(m: Memory, hist: seq<Commit>, call: Call)
    requires Numbered(hist) && MemoryHolds(m, hist) && PlanCall(m, call).Some?
    ensures var p := PlanCall(m, call).value;
            var c := NextCommit(m, p.changes);
            Numbered(hist + [c]) && JobsHold(p.jobs, hist + [c])
  {
    hide Jobs.Replay, Jobs.CatalogOk, Jobs.Plan, Records.Plan, ValidSchema, Compatible;
    var p := PlanCall(m, call).value;
    if call.JobCall? {
      JobEventReplays(m.jobs, call.op);
    } else {
      NoEvents(m.jobs);
    }
    JobsExtend(m.jobs, hist, NextCommit(m, p.changes), p.jobs);
  }

  lemma JobEventReplays(jobs: Jobs.Catalog, op: Jobs.Op)
    requires Jobs.CatalogOk(jobs) && Jobs.Plan(jobs, op).Some?
    ensures Jobs.Replay(jobs, [Jobs.Plan(jobs, op).value.1]) == Some(Jobs.Plan(jobs, op).value.0)
    ensures Jobs.CatalogOk(Jobs.Plan(jobs, op).value.0)
  {
    hide Jobs.CatalogOk, Jobs.Plan, Jobs.ApplyEvent;
    Jobs.EventDoesWhatCallDid(jobs, op);
    Jobs.PlanKeepsOk(jobs, op);
    var e, next := Jobs.Plan(jobs, op).value.1, Jobs.Plan(jobs, op).value.0;
    assert [e][1..] == [];
    NoEvents(next);
  }

  lemma NoEvents(jobs: Jobs.Catalog)
    ensures Jobs.Replay(jobs, []) == Some(jobs)
  {
  }

  /** One more whole frame in the log. */
  lemma LogGrows(d: Disk, hist: seq<Commit>, c: Commit)
    requires DiskHolds(d, hist) && d.manifest.latestEpoch == |hist|
    ensures DiskHolds(d.(wal := d.wal + [c]), hist + [c])
  {
    hide CheckpointHolds, SchemasOf;
    var first := |hist| - |d.wal|;
    assert (hist + [c])[first..] == hist[first..] + [c];
    assert (hist + [c])[..d.manifest.latestEpoch] == hist[..d.manifest.latestEpoch];
    forall e | e in d.checkpoints ensures (hist + [c])[..e] == hist[..e] {
      assert e <= |hist|;
    }
  }

  /** Renaming in a manifest that is level with the history. */
  lemma ManifestRenamed(d: Disk, hist: seq<Commit>, man: Manifest)
    requires DiskHolds(d, hist) && man.latestEpoch == |hist| && man.schemas == SchemasOf(hist)
    requires man.checkpointEpoch == d.manifest.checkpointEpoch
    ensures DiskHolds(d.(manifest := man), hist)
  {
    hide CheckpointHolds, SchemasOf;
    assert hist[..|hist|] == hist;
  }

  lemma LevelManifest(d: Disk, hist: seq<Commit>)
    requires DiskHolds(d, hist) && d.manifest.latestEpoch == |hist|
    ensures d.manifest.schemas == SchemasOf(hist)
  {
    assert hist[..|hist|] == hist;
  }

  lemma AccountInFlight(s: State, t: State)
    requires Accounted(s) && !s.pc.Logged? && !s.pc.InMemory? && !s.pc.Durable? && Numbered(t.hist)
    requires |t.hist| == |s.hist| + 1 && t.hist[..|s.hist|] == s.hist && t.acks == s.acks
    requires (t.interrupted == s.interrupted && t.pc.Logged?)
          || (t.interrupted == s.interrupted + [|s.hist| + 1] && t.pc.Down?)
    ensures Accounted(t)
  {
    var n := |t.hist|;
    assert forall i | 0 <= i < |s.hist| :: t.hist[i] == s.hist[i];
    assert t.hist[n - 1].epoch == n;
    assert forall i | 0 <= i < |s.acks| :: s.acks[i].epoch < n;
    assert t.hist[n - 1] !in t.acks;
    if t.pc.Down? {
      assert t.interrupted[|s.interrupted|] == n;
    }
  }

  lemma AccountSame(s: State, t: State)
    requires Accounted(s) && t.hist == s.hist && t.acks == s.acks && t.interrupted == s.interrupted
    requires (s.pc.Logged? || s.pc.InMemory? || s.pc.Durable?) == (t.pc.Logged? || t.pc.InMemory? || t.pc.Durable?)
    ensures Accounted(t)
  {
  }

  lemma AccountReturned(s: State, t: State)
    requires Accounted(s) && Numbered(s.hist) && s.pc.Durable? && t.pc.Idle? && t.hist == s.hist &&
             t.interrupted == s.interrupted
    requires t.acks == s.acks + [s.hist[|s.hist| - 1]]
    ensures Accounted(t)
  {
    hide HasJobs, PcHolds, DiskHolds;
    var n := |s.hist|;
    forall i | 0 <= i < |s.acks| ensures s.acks[i].epoch < n {
      assert s.acks[i] in s.acks;
    }
    assert t.acks[|s.acks|] == s.hist[n - 1];
    forall m | 1 <= m <= n ensures m in t.interrupted <==> s.hist[m - 1] !in t.acks {
      assert s.hist[m - 1] in t.acks <==> s.hist[m - 1] in s.acks || s.hist[m - 1] == s.hist[n - 1];
      assert s.hist[m - 1].epoch == m;
    }
  }

  lemma AccountCrashed(s: State)
    requires Accounted(s)
    ensures Accounted(Crashed(s))
  {
    var t := Crashed(s);
    if s.pc.Logged? || s.pc.InMemory? || s.pc.Durable? {
      assert t.interrupted[|s.interrupted|] == |s.hist|;
    } else {
      assert t.interrupted == s.interrupted;
    }
  }

  lemma LogKeepsInv(s: State, call: Call)
    requires Inv(s)
    ensures Inv(Step(s, LogCommit(call)))
  {
    hide DiskHolds, MemoryHolds, Numbered, Accounted, JobsHold, PlanCall;
    var t := Step(s, LogCommit(call));
    if s.pc.Idle? && PlanCall(s.mem, call).Some? {
      LevelMemory(s.mem, s.hist);
      var p := PlanCall(s.mem, call).value;
      var c := NextCommit(s.mem, p.changes);
      PlannedExtends(s.mem, s.hist, call);
      LogGrows(s.disk, s.hist, c);
      assert t.hist[..|s.hist|] == s.hist;
      AccountInFlight(s, t);
      assert HasJobs(t.hist);
    }
  }

  lemma LevelMemory(m: Memory, hist: seq<Commit>)
    requires MemoryHolds(m, hist)
    ensures m.manifest.latestEpoch == |hist| && m.manifest.schemas == SchemasOf(hist)
  {
  }

  lemma CrashInAppendKeepsInv(s: State, call: Call, whole: bool)
    requires Inv(s)
    ensures Inv(Step(s, CrashInAppend(call, whole)))
  {
    hide DiskHolds, MemoryHolds, Numbered, Accounted, JobsHold, PlanCall;
    var t := Step(s, CrashInAppend(call, whole));
    if s.pc.Idle? && PlanCall(s.mem, call).Some? {
      if whole {
        LevelMemory(s.mem, s.hist);
        var c := NextCommit(s.mem, PlanCall(s.mem, call).value.changes);
        PlannedExtends(s.mem, s.hist, call);
        LogGrows(s.disk, s.hist, c);
        assert t.hist[..|s.hist|] == s.hist;
        AccountInFlight(s, t);
        assert HasJobs(t.hist);
      } else {
        TornTail(s.disk, s.hist, true);
        AccountSame(s, t);
      }
    }
  }

  lemma ApplyKeepsInv(s: State)
    requires Inv(s)
    ensures Inv(Step(s, ApplyInMemory))
  {
    hide DiskHolds, Numbered, Accounted, HasJobs, JobsHold;
    if s.pc.Logged? {
      var front, c := s.hist[..|s.hist| - 1], s.pc.commit;
      assert s.hist == front + [c];
      LastEpoch(s.hist);
      AppliedHolds(s.mem, front, c, s.pc.planned);
      AccountSame(s, Step(s, ApplyInMemory));
    }
  }

  lemma LastEpoch(hist: seq<Commit>)
    requires Numbered(hist) && hist != []
    ensures hist[|hist| - 1].epoch == |hist|
  {
  }

  lemma AppliedHolds(m: Memory, front: seq<Commit>, c: Commit, p: Planned)
    requires MemoryHolds(m, front) && JobsHold(p.jobs, front + [c]) && c.epoch == |front| + 1
    ensures MemoryHolds(Applied(m, c, p), front + [c])
  {
    hide JobsHold;
    AllSplit(front, [c]);
    JustOne(c);
    UpsertsSplit([], AllSchemas(front), c.changes.schemas);
  }

  lemma RenameKeepsInv(s: State)
    requires Inv(s)
    ensures Inv(Step(s, RenameManifest))
  {
    hide DiskHolds, Numbered, Accounted, JobsHold;
    if s.pc.InMemory? {
      ManifestRenamed(s.disk, s.hist, s.mem.manifest);
      AccountSame(s, Step(s, RenameManifest));
    }
  }

  lemma ReturnKeepsInv(s: State)
    requires Inv(s)
    ensures Inv(Step(s, Return))
  {
    hide DiskHolds, Numbered, Accounted, MemoryHolds;
    if s.pc.Durable? { AccountReturned(s, Step(s, Return)); }
  }

  lemma TornTail(d: Disk, hist: seq<Commit>, torn: bool)
    requires DiskHolds(d, hist)
    ensures DiskHolds(d.(torn := torn), hist)
  {
    hide CheckpointHolds, SchemasOf;
  }

  lemma OpenLogKeepsInv(s: State)
    requires Inv(s)
    ensures Inv(Step(s, OpenLog))
  {
    hide Numbered, Accounted, DiskHolds, MemoryHolds, HasJobs;
    if s.pc.Down? {
      TornTail(s.disk, s.hist, false);
      AccountSame(s, Step(s, OpenLog));
    }
  }

  lemma RecoverKeepsInv(s: State)
    requires Inv(s)
    ensures Inv(Step(s, RecoverManifest))
  {
    hide Numbered, Accounted, DiskHolds, MemoryHolds, HasJobs, Recover;
    if s.pc.LogOpened? {
      AccountSame(s, Step(s, RecoverManifest));
      if Recover(s.disk).Some? {
        RecoveryIsExact(s.disk, s.hist);
        var m := Recover(s.disk).value;
        LevelMemory(m, s.hist);
        LatestWithin(s.disk, s.hist);
        if s.disk.manifest.latestEpoch < |s.hist| { ManifestRenamed(s.disk, s.hist, m.manifest); }
      }
    }
  }

  lemma FinishOpenKeepsInv(s: State)
    requires Inv(s)
    ensures Inv(Step(s, FinishOpen))
  {
    hide Numbered, Accounted, DiskHolds, MemoryHolds, HasJobs;
    if s.pc.ManifestRecovered? { AccountSame(s, Step(s, FinishOpen)); }
  }

  lemma LatestWithin(d: Disk, hist: seq<Commit>)
    requires DiskHolds(d, hist)
    ensures d.manifest.latestEpoch <= |hist|
  {
  }

  lemma CheckpointAdded(d: Disk, hist: seq<Commit>, ck: Checkpoint)
    requires DiskHolds(d, hist) && CheckpointHolds(ck, hist)
    ensures DiskHolds(d.(checkpoints := d.checkpoints[|hist| := ck]), hist)
  {
    hide CheckpointHolds, SchemasOf;
    assert hist[..|hist|] == hist;
  }

  lemma SnapshotHolds(m: Memory, hist: seq<Commit>)
    requires MemoryHolds(m, hist)
    ensures CheckpointHolds(SnapshotOf(m), hist)
  {
  }

  lemma WriteCheckpointKeepsInv(s: State)
    requires Inv(s)
    ensures Inv(Step(s, WriteCheckpoint))
  {
    hide Numbered, Accounted, DiskHolds, MemoryHolds, CheckpointHolds;
    if s.pc.Idle? {
      LevelMemory(s.mem, s.hist);
      SnapshotHolds(s.mem, s.hist);
      CheckpointAdded(s.disk, s.hist, SnapshotOf(s.mem));
      AccountSame(s, Step(s, WriteCheckpoint));
    }
  }

  lemma ManifestAtCheckpoint(d: Disk, hist: seq<Commit>, generation: nat)
    requires DiskHolds(d, hist) && d.manifest.latestEpoch == |hist| && |hist| in d.checkpoints
    ensures DiskHolds(d.(manifest := d.manifest.(checkpointEpoch := |hist|, generation := generation)), hist)
  {
    hide CheckpointHolds, SchemasOf;
  }

  lemma CheckpointManifestKeepsInv(s: State)
    requires Inv(s)
    ensures Inv(Step(s, RenameCheckpointManifest))
  {
    hide Numbered, Accounted, DiskHolds, MemoryHolds;
    if s.pc.CheckpointWritten? {
      LevelMemory(s.mem, s.hist);
      ManifestAtCheckpoint(s.disk, s.hist, s.disk.manifest.generation + 1);
      AccountSame(s, Step(s, RenameCheckpointManifest));
    }
  }

  lemma LogEmptied(d: Disk, hist: seq<Commit>)
    requires DiskHolds(d, hist) && d.manifest.checkpointEpoch == |hist|
    ensures DiskHolds(d.(wal := [], torn := false), hist)
  {
    hide CheckpointHolds, SchemasOf;
    assert hist[|hist|..] == [];
  }

  lemma TruncateKeepsInv(s: State)
    requires Inv(s)
    ensures Inv(Step(s, TruncateLog))
  {
    hide Numbered, Accounted, DiskHolds, MemoryHolds;
    if s.pc.CheckpointManifest? {
      LogEmptied(s.disk, s.hist);
      AccountSame(s, Step(s, TruncateLog));
    }
  }

  lemma FinishCheckpointKeepsInv(s: State)
    requires Inv(s)
    ensures Inv(Step(s, FinishCheckpoint))
  {
    hide Numbered, Accounted, JobsHold, DiskHolds;
    if s.pc.LogTruncated? {
      LevelManifest(s.disk, s.hist);
      AccountSame(s, Step(s, FinishCheckpoint));
    }
  }

  lemma CrashKeepsInv(s: State)
    requires Inv(s)
    ensures Inv(Crashed(s))
  {
    hide Numbered, Accounted, JobsHold, DiskHolds;
    AccountCrashed(s);
  }

  lemma StepKeepsInv(s: State, a: Action)
    requires Inv(s)
    ensures Inv(Step(s, a))
  {
    hide Inv;
    match a {
      case OpenLog => OpenLogKeepsInv(s);
      case RecoverManifest => RecoverKeepsInv(s);
      case FinishOpen => FinishOpenKeepsInv(s);
      case LogCommit(call) => LogKeepsInv(s, call);
      case CrashInAppend(call, whole) => CrashInAppendKeepsInv(s, call, whole);
      case ApplyInMemory => ApplyKeepsInv(s);
      case RenameManifest => RenameKeepsInv(s);
      case Return => ReturnKeepsInv(s);
      case WriteCheckpoint => WriteCheckpointKeepsInv(s);
      case RenameCheckpointManifest => CheckpointManifestKeepsInv(s);
      case TruncateLog => TruncateKeepsInv(s);
      case FinishCheckpoint => FinishCheckpointKeepsInv(s);
      case Crash => CrashKeepsInv(s);
    }
  }

  lemma {:induction false} RunKeepsInv(s: State, actions: seq<Action>)
    requires Inv(s)
    ensures Inv(Run(s, actions))
    decreases |actions|
  {
    hide Inv, Step;
    if actions != [] {
      StepKeepsInv(s, actions[0]);
      RunKeepsInv(Step(s, actions[0]), actions[1..]);
    }
  }

  lemma StartHolds()
    ensures Inv(Start())
  {
    hide JobsHold, SchemasOf, MemoryHolds, CheckpointHolds;
    NoCommits();
    assert HasJobs([]);
    assert Start().hist[..0] == [];
    StartAccounted();
  }

  lemma StartAccounted()
    ensures Accounted(Start())
  {
  }

  /** Over every run of calls, checkpoints and reopenings with a crash between any two I/O
      steps: reopening the disk succeeds if and only if every write logged past the
      checkpoint is accepted under the final schemas; then it rebuilds the whole history,
      schemas in order. Every acknowledged commit is in the history once, at its epoch, and
      every other commit of it was interrupted or is in flight. */
  lemma EveryRunRecovers(actions: seq<Action>)
    ensures var s := Run(Start(), actions);
            && (Recover(s.disk).Some? <==> Rebuilt(s.disk, s.hist).Some?)
            && (Recover(s.disk).Some? ==> MemoryHolds(Recover(s.disk).value, s.hist) &&
                                          Rebuilt(s.disk, s.hist) == Some(Recover(s.disk).value.records))
            && Numbered(s.hist) && Accounted(s)
  {
    hide DiskHolds, PcHolds, MemoryHolds, Numbered, Accounted, HasJobs, Run, Recover, Rebuilt;
    StartHolds();
    RunKeepsInv(Start(), actions);
    RecoveryIsExact(Run(Start(), actions).disk, Run(Start(), actions).hist);
  }

  /** Whenever the engine is idle the staleness test before each write finds nothing newer
      on disk, and reopening, if it succeeds, gives the memory back but for the records,
      which are those of the replay. */
  lemma IdleMemoryIsFresh(actions: seq<Action>)
    ensures var s := Run(Start(), actions);
            s.pc.Idle? ==>
              !Stale(s.disk, s.mem) &&
              (Recover(s.disk).Some? ==> Recover(s.disk) == Some(s.mem.(records := Recover(s.disk).value.records)))
  {
    hide Run, Inv, Stale, Recover;
    StartHolds();
    RunKeepsInv(Start(), actions);
    if Run(Start(), actions).pc.Idle? { IdleIsFresh(Run(Start(), actions)); }
  }

  lemma IdleIsFresh(s: State)
    requires Inv(s) && s.pc.Idle?
    ensures !Stale(s.disk, s.mem)
    ensures Recover(s.disk).Some? ==> Recover(s.disk) == Some(s.mem.(records := Recover(s.disk).value.records))
  {
    hide Numbered, Accounted, JobsHold, SchemasOf, CheckpointHolds, Recover, Rebuilt;
    RecoveryIsExact(s.disk, s.hist);
    if Recover(s.disk).Some? { SameJobs(s.mem.jobs, Recover(s.disk).value.jobs, s.hist); }
    if s.disk.wal != [] { LastEpoch(s.hist); }
  }

  lemma SameJobs(a: Jobs.Catalog, b: Jobs.Catalog, hist: seq<Commit>)
    requires JobsHold(a, hist) && JobsHold(b, hist)
    ensures a == b
  {
  }

  predicate Stale(d: Disk, m: Memory)
  {
    Newer(d.manifest, if d.wal == [] then None else Some(d.wal[|d.wal| - 1].epoch), m)
  }

  /** The last epoch in the log or the durable manifest is ahead of the memory. */
  predicate Newer(man: Manifest, lastEpoch: Option<nat>, m: Memory)
  {
    || (lastEpoch.Some? && lastEpoch.value > m.manifest.latestEpoch)
    || man.latestEpoch > m.manifest.latestEpoch
    || man.checkpointEpoch > m.manifest.checkpointEpoch
    || man.generation > m.manifest.generation
  }

  /** Once reopening is refused it stays refused, whatever is tried. */
  lemma {:induction false} RefusedForGood(s: State, actions: seq<Action>)
    requires s.pc.Down? || s.pc.LogOpened?
    requires Recover(s.disk).None?
    ensures var t := Run(s, actions);
            (t.pc.Down? || t.pc.LogOpened?) && t.hist == s.hist && t.disk == s.disk.(torn := t.disk.torn)
    decreases |actions|
  {
    hide Step, Recover;
    if actions != [] {
      RefusedStep(s, actions[0]);
      RefusedForGood(Step(s, actions[0]), actions[1..]);
    }
  }

  lemma RefusedStep(s: State, a: Action)
    requires (s.pc.Down? || s.pc.LogOpened?) && Recover(s.disk).None?
    ensures var t := Step(s, a);
            && (t.pc.Down? || t.pc.LogOpened?) && t.hist == s.hist && t.disk == s.disk.(torn := t.disk.torn)
            && Recover(t.disk).None?
  {
    hide Recover, PlanCall, Applied;
    TornDoesNotMatter(s.disk, Step(s, a).disk.torn);
  }

  lemma TornDoesNotMatter(d: Disk, torn: bool)
    ensures Recover(d.(torn := torn)) == Recover(d)
  {
    hide Assemble;
  }

  // ---------------------------------------------------------------- the engine object

  /** The memory after the staleness test. A stale handle would reopen the directory, whose
      lock it holds itself: `None` is the lock error. */
  function Refreshed(d: Disk, m: Memory): Option<Memory>
  {
    if Stale(d, m) then None else Some(m)
  }

  /** The disk after a reopening that gave `m`. */
  function Levelling(d: Disk, m: Memory): Disk
  {
    d.(torn := false, manifest := if m.manifest.latestEpoch > d.manifest.latestEpoch then m.manifest else d.manifest)
  }

  datatype CallResult = CallResult(disk: Disk, mem: Memory, epoch: Option<nat>)

  /** Disk, memory and answer of a call that ran to its return: `None` when the handle is stale
      or the call is rejected, and then nothing has changed. */
  function CallDone(d: Disk, m: Memory, call: Call): CallResult
  {
    if PlanCall(m, call).None? || Refreshed(d, m).None? then CallResult(d, m, None) else
    var p := PlanCall(m, call).value;
    var c := NextCommit(m, p.changes);
    var after := Applied(m, c, p);
    CallResult(d.(wal := d.wal + [c], manifest := after.manifest), after, Some(c.epoch))
  }

  /** Disk and memory after a checkpoint that ran to its end. */
  function CheckpointDone(d: Disk, m: Memory): (Disk, Memory)
  {
    var epoch, cks := m.manifest.latestEpoch, d.checkpoints[m.manifest.latestEpoch := SnapshotOf(m)];
    if d.manifest.latestEpoch != epoch then (d.(checkpoints := cks), m) else
    var man := d.manifest.(checkpointEpoch := epoch, generation := d.manifest.generation + 1);
    (Disk(man, [], false, cks), m.(manifest := man))
  }

  /** The steps of an undisturbed call come to exactly that. */
  lemma UndisturbedCall(s: State, call: Call)
    requires Inv(s) && s.pc.Idle? && PlanCall(s.mem, call).Some?
    ensures var t := Run(s, [LogCommit(call), ApplyInMemory, RenameManifest, Return]);
            t.pc.Idle? && CallDone(s.disk, s.mem, call) == CallResult(t.disk, t.mem, Some(|s.hist| + 1))
  {
    hide PlanCall, Applied, Run, Recover, Inv, Stale;
    IdleIsFresh(s);
    IdleEpoch(s);
    RunFour(s, LogCommit(call), ApplyInMemory, RenameManifest, Return);
  }

  lemma IdleEpoch(s: State)
    requires Inv(s) && s.pc.Idle?
    ensures s.mem.manifest.latestEpoch == |s.hist|
  {
  }

  /** The steps of an undisturbed checkpoint come to exactly that. */
  lemma UndisturbedCheckpoint(s: State)
    requires s.pc.Idle? && s.disk.manifest.latestEpoch == s.mem.manifest.latestEpoch
    ensures var t := Run(s, [WriteCheckpoint, RenameCheckpointManifest, TruncateLog, FinishCheckpoint]);
            t.pc.Idle? && (t.disk, t.mem) == CheckpointDone(s.disk, s.mem)
  {
    hide Run, SnapshotOf;
    RunFour(s, WriteCheckpoint, RenameCheckpointManifest, TruncateLog, FinishCheckpoint);
    var a := Step(s, WriteCheckpoint);
    var b := Step(a, RenameCheckpointManifest);
    assert b.pc.CheckpointManifest? && b.mem == s.mem;
    var c := Step(b, TruncateLog);
    assert c.pc == LogTruncated(b.disk.manifest) && c.mem == s.mem;
    var t := Step(c, FinishCheckpoint);
    assert t.disk.wal == CheckpointDone(s.disk, s.mem).0.wal;
  }

  lemma RunFour(s: State, a: Action, b: Action, c: Action, d: Action)
    ensures Run(s, [a, b, c, d]) == Step(Step(Step(Step(s, a), b), c), d)
  {
    hide Step, Run;
    assert [a, b, c, d] == [a] + ([b] + ([c] + ([d] + [])));
    var t := Step(s, a);
    RunStep(s, a, [b] + ([c] + ([d] + [])));
    RunStep(t, b, [c] + ([d] + []));
    RunStep(Step(t, b), c, [d] + []);
    RunStep(Step(Step(t, b), c), d, []);
    RunNothing(Step(Step(Step(t, b), c), d));
  }

  lemma RunStep(s: State, a: Action, rest: seq<Action>)
    ensures Run(s, [a] + rest) == Run(Step(s, a), rest)
  {
    hide Step;
    assert ([a] + rest)[1..] == rest;
  }

  lemma {:induction false} RunSplit(s: State, a: seq<Action>, b: seq<Action>)
    ensures Run(s, a + b) == Run(Run(s, a), b)
    decreases |a|
  {
    hide Step;
    if a == [] {
      assert a + b == b;
    } else {
      assert (a + b)[1..] == a[1..] + b;
      RunSplit(Step(s, a[0]), a[1..], b);
    }
  }

  lemma RunNothing(s: State)
    ensures Run(s, []) == s
  {
  }

  class Directory {
    var manifest: Manifest
    var wal: seq<Commit>
    var torn: bool
    var checkpoints: map<nat, Checkpoint>

    constructor ()
      ensures Contents() == Start().disk
    {
      manifest, wal, torn, checkpoints := Manifest(0, 0, 1, []), [], false, map[];
    }

    function Contents(): Disk
      reads this
    {
      Disk(manifest, wal, torn, checkpoints)
    }
  }

  class TraceDb {
    const dir: Directory
    var manifest: Manifest
    var store: seq<Commit>
    var receipts: seq<IdempotencyReceipt>
    var records: Store
    var jobCatalog: Jobs.Catalog

    function Contents(): Memory
      reads this
    {
      Memory(manifest, store, records, receipts, jobCatalog)
    }

    constructor (dir: Directory, m: Memory)
      ensures this.dir == dir && Contents() == m
    {
      this.dir := dir;
      manifest, store, records, receipts, jobCatalog := m.manifest, m.store, m.records, m.receipts, m.jobs;
    }

    /** The staleness test before a call. */
    method Refresh() returns (ok: bool)
      ensures ok <==> Refreshed(dir.Contents(), Contents()) == Some(Contents())
      ensures !ok <==> Stale(dir.Contents(), Contents())
    {
      ok := !Stale(dir.Contents(), Contents());
    }

    /** Refresh, check, append to the log, apply in memory, rename the manifest. */
    method Perform(call: Call) returns (epoch: Option<nat>)
      modifies this, dir
      ensures CallResult(dir.Contents(), Contents(), epoch) == CallDone(old(dir.Contents()), old(Contents()), call)
    {
      hide PlanCall, Upserts, Recover, Stale;
      var ok := Refresh();
      if !ok { return None; }
      var planned := PlanCall(Contents(), call);
      if planned.None? { return None; }
      var c := NextCommit(Contents(), planned.value.changes);
      dir.wal := dir.wal + [c];
      store := store + [c];
      records := planned.value.records;
      receipts := receipts + c.changes.receipts;
      jobCatalog := planned.value.jobs;
      var schemas := UpsertAll(manifest.schemas, c.changes.schemas);
      manifest := manifest.(latestEpoch := c.epoch, generation := manifest.generation + 1, schemas := schemas);
      dir.manifest := manifest;
      return Some(c.epoch);
    }

    /** Checkpoint file, then manifest, then log truncation; `None` is the stale-handle error. */
    method WriteCheckpointFile() returns (epoch: Option<nat>)
      modifies this, dir
      ensures (dir.Contents(), Contents()) == CheckpointDone(old(dir.Contents()), old(Contents()))
      ensures epoch == if old(dir.manifest).latestEpoch != old(manifest).latestEpoch then None
                       else Some(old(manifest).latestEpoch)
    {
      dir.checkpoints := dir.checkpoints[manifest.latestEpoch := SnapshotOf(Contents())];
      var next := dir.manifest;
      if next.latestEpoch != manifest.latestEpoch { return None; }
      next := next.(checkpointEpoch := manifest.latestEpoch, generation := next.generation + 1);
      dir.manifest := next;
      dir.wal, dir.torn := [], false;
      manifest := next;
      return Some(manifest.latestEpoch);
    }
  }

  /** Reopen a directory: truncate the torn tail, load the checkpoint, replay the log past
      it, and bring the manifest level. */
  method Open(dir: Directory) returns (db: Option<TraceDb>)
    modifies dir
    ensures match Recover(old(dir.Contents()))
            case None => db.None? && dir.Contents() == old(dir.Contents()).(torn := false)
            case Some(m) =>
              && db.Some? && fresh(db.value) && db.value.dir == dir && db.value.Contents() == m
              && dir.Contents() == Levelling(old(dir.Contents()), m)
  {
    hide Upserts, AllSchemas, AllReceipts, AllEvents, Since, ApplyAll;
    dir.torn := false;
    if !CheckpointFound(dir.Contents()) { return None; }
    var man, base := dir.manifest, BaseCheckpoint(dir.Contents());
    var commits := Since(dir.wal, man.checkpointEpoch);
    var schemas := UpsertAll(if man.schemas == [] then base.schemas else man.schemas, AllSchemas(commits));
    var jobs := ReplayEvents(base.jobs, AllEvents(commits));
    if jobs.None? { return None; }
    var records := Records.Replay(schemas, base.records, WritesOf(commits));
    if records.None? { return None; }
    var next := Levelled(man.(schemas := schemas), commits);
    if next.latestEpoch > man.latestEpoch { dir.manifest := next; }
    var reopened := new TraceDb(dir, Memory(next, base.store + commits, records.value,
                                            base.receipts + AllReceipts(commits), jobs.value));
    return Some(reopened);
  }

  /** The loop over the job events of a replay. */
  method ReplayEvents(start: Jobs.Catalog, events: seq<Jobs.JobEvent>) returns (r: Option<Jobs.Catalog>)
    ensures r == Jobs.Replay(start, events)
  {
    hide Jobs.ApplyEvent;
    var jobs, i := start, 0;
    while i < |events|
      invariant 0 <= i <= |events| && Jobs.Replay(jobs, events[i..]) == Jobs.Replay(start, events)
    {
      assert events[i..][1..] == events[i + 1..];
      var next := Jobs.ApplyEvent(jobs, events[i]);
      if next.None? { return None; }
      jobs, i := next.value, i + 1;
    }
    assert events[i..] == [];
    return Some(jobs);
  }
}
