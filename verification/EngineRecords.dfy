/** Records across a reopening: a condition on the calls since the checkpoint under which replay
    takes every logged write and gives back the records the engine had. */
module EngineRecords {
  import opened Ordering
  import opened Schemas
  import opened Records
  import opened Engine
  import Jobs

  function TablesOf(cs: seq<Commit>): set<string>
  {
    if cs == [] then {} else TablesOf(cs[..|cs| - 1]) + Tables(cs[|cs| - 1].changes.writes)
  }

  /** These changes leave the identity and vector columns of the tables as they are. */
  predicate Spares(before: seq<TableSchema>, changes: seq<TableSchema>, tables: set<string>)
  {
    forall i | 0 <= i < |changes| ::
      changes[i].name in tables ==> SameShape(Find(before, changes[i].name), Some(changes[i]))
  }

  /** From the commit numbered `first` on, once a table has been written its identity and vector
      columns stay as they are, and the writes name their tenants. */
  predicate Steady(hist: seq<Commit>, first: nat)
  {
    |hist| <= first ||
    var n := |hist| - 1;
    && Steady(hist[..n], first) && Named(hist[n].changes.writes)
    && Spares(SchemasOf(hist[..n]), hist[n].changes.schemas, TablesOf(hist[first..n]))
  }

  predicate SteadySince(d: Disk, hist: seq<Commit>)
  {
    Steady(hist, d.manifest.checkpointEpoch)
  }

  /** Over a steady stretch, replay accepts every write and gives these records. */
  ghost predicate Builds(d: Disk, hist: seq<Commit>, records: Store)
  {
    SteadySince(d, hist) ==> Rebuilt(d, hist) == Some(records)
  }

  ghost predicate RecordsHold(s: State)
  {
    && NulFree(SchemasOf(s.hist))
    && match s.pc
       case Down => SteadySince(s.disk, s.hist) ==> Rebuilt(s.disk, s.hist).Some?
       case LogOpened => SteadySince(s.disk, s.hist) ==> Rebuilt(s.disk, s.hist).Some?
       case ManifestRecovered(m) => Builds(s.disk, s.hist, m.records)
       case Logged(_, p) => Builds(s.disk, s.hist, p.records)
       case CheckpointWritten =>
         && Builds(s.disk, s.hist, s.mem.records)
         && (|s.hist| in s.disk.checkpoints ==> s.disk.checkpoints[|s.hist|].records == s.mem.records)
       case _ => Builds(s.disk, s.hist, s.mem.records)
  }

  lemma {:induction false} TableIn(cs: seq<Commit>, i: nat)
    requires i < |cs|
    ensures Tables(cs[i].changes.writes) <= TablesOf(cs)
  {
    hide Tables;
    if i < |cs| - 1 { TableIn(cs[..|cs| - 1], i); }
  }

  lemma NoWritesApply(schemas: seq<TableSchema>, store: Store)
    ensures Apply(schemas, store, NoWrites) == Some(store) && ApplyAll(schemas, store, [NoWrites]) == Some(store)
  {
    assert [NoWrites][1..] == [];
  }

  /** One more commit, planned live: the replay takes it and leaves the planned records. */
  lemma BuildsOneMore(d: Disk, hist: seq<Commit>, m: Memory, call: Call)
    requires d.manifest.checkpointEpoch <= |hist| && m.manifest.schemas == SchemasOf(hist) && NulFree(SchemasOf(hist))
    requires PlanCall(m, call).Some? && Builds(d, hist, m.records)
    ensures var p := PlanCall(m, call).value; var c := NextCommit(m, p.changes);
            Builds(d, hist + [c], p.records) && NulFree(SchemasOf(hist + [c]))
  {
    hide Records.Plan, Jobs.Plan, ApplyAll, Steady, NulFree, ValidSchema, Compatible, SchemasOf, Spares;
    var p := PlanCall(m, call).value;
    var c := NextCommit(m, p.changes);
    var cs, schemas := Past(d, hist), SchemasOf(hist);
    assert Past(d, hist + [c]) == cs + [c];
    assert WritesOf(cs + [c]) == WritesOf(cs) + [c.changes.writes];
    SchemasOneMore(hist, c);
    if call.ApplySchema? { ValidIsNulFree(schemas, call.schema); }
    if !SteadySince(d, hist + [c]) { return; }
    SteadyFront(hist, c, d.manifest.checkpointEpoch);
    if call.ApplySchema? {
      ChangeOneSchema(schemas, call.schema, Base(d), cs);
      ApplyAllSplit(Upsert(schemas, call.schema), Base(d), WritesOf(cs), [c.changes.writes]);
      NoWritesApply(Upsert(schemas, call.schema), m.records);
    } else {
      ApplyAllSplit(schemas, Base(d), WritesOf(cs), [c.changes.writes]);
      if call.WriteRecords? {
        PlannedReplays(schemas, m.records, call.write);
        JustOneApply(schemas, m.records, c.changes.writes);
      } else {
        NoWritesApply(schemas, m.records);
      }
    }
  }

  lemma JustOneApply(schemas: seq<TableSchema>, store: Store, w: Writes)
    ensures ApplyAll(schemas, store, [w]) == Apply(schemas, store, w)
  {
    hide Apply;
    assert [w][1..] == [];
  }

  lemma SchemasOneMore(hist: seq<Commit>, c: Commit)
    ensures SchemasOf(hist + [c]) == Upserts(SchemasOf(hist), c.changes.schemas)
    ensures c.changes.schemas == [] ==> SchemasOf(hist + [c]) == SchemasOf(hist)
    ensures |c.changes.schemas| == 1 ==> SchemasOf(hist + [c]) == Upsert(SchemasOf(hist), c.changes.schemas[0])
  {
    AllSplit(hist, [c]);
    JustOne(c);
    UpsertsSplit([], AllSchemas(hist), c.changes.schemas);
    if |c.changes.schemas| == 1 { assert c.changes.schemas[1..] == []; }
  }

  lemma SteadyFront(hist: seq<Commit>, c: Commit, first: nat)
    requires Steady(hist + [c], first) && first <= |hist|
    ensures Steady(hist, first) && Named(c.changes.writes)
    ensures Spares(SchemasOf(hist), c.changes.schemas, TablesOf(hist[first..]))
  {
    hide SchemasOf, TablesOf, Spares;
    assert (hist + [c])[..|hist|] == hist && (hist + [c])[first..|hist|] == hist[first..];
  }

  lemma ValidIsNulFree(schemas: seq<TableSchema>, s: TableSchema)
    requires NulFree(schemas) && ValidSchema(s)
    ensures NulFree(Upsert(schemas, s))
  {
    hide ColumnSet, VectorOk;
    UpsertAtPlace(schemas, s);
    assert forall i | 0 <= i < |s.name| :: IdentifierChar(s.name[i]);
  }

  /** A schema change that spares the tables these commits write leaves their replay as it is. */
  lemma ChangeOneSchema(schemas: seq<TableSchema>, s: TableSchema, store: Store, cs: seq<Commit>)
    requires Spares(schemas, [s], TablesOf(cs))
    ensures ApplyAll(Upsert(schemas, s), store, WritesOf(cs)) == ApplyAll(schemas, store, WritesOf(cs))
  {
    hide Tables, ApplyAll, Find, Upsert, TablesOf;
    forall i | 0 <= i < |cs| ensures SameFor(Upsert(schemas, s), schemas, Tables(WritesOf(cs)[i])) {
      TableIn(cs, i);
      forall t | t in Tables(WritesOf(cs)[i]) ensures SameShape(Find(Upsert(schemas, s), t), Find(schemas, t)) {
        FindUpsert(schemas, s, t);
        assert s == [s][0];
      }
    }
    SameApplyAll(Upsert(schemas, s), schemas, store, WritesOf(cs));
  }

  // ---------------------------------------------------------------- every step

  lemma CommitKeepsRecords(s: State, call: Call)
    requires Inv(s) && RecordsHold(s) && s.pc.Idle? && PlanCall(s.mem, call).Some?
    ensures var p := PlanCall(s.mem, call).value; var c := NextCommit(s.mem, p.changes);
            && NulFree(SchemasOf(s.hist + [c])) && Builds(s.disk, s.hist + [c], p.records)
  {
    hide PlanCall, Builds, NulFree, JobsHold, Accounted, SchemasOf;
    BuildsOneMore(s.disk, s.hist, s.mem, call);
  }

  /** Only the manifest's checkpoint epoch and that checkpoint's records matter. */
  lemma SameRebuilt(d: Disk, e: Disk, hist: seq<Commit>)
    requires e.manifest.checkpointEpoch == d.manifest.checkpointEpoch && Base(e) == Base(d)
    ensures Rebuilt(e, hist) == Rebuilt(d, hist) && SteadySince(e, hist) == SteadySince(d, hist)
  {
    hide ApplyAll, SchemasOf, Base;
  }

  /** Right after a checkpoint there is nothing to replay. */
  lemma NothingToReplay(d: Disk, hist: seq<Commit>)
    requires d.manifest.checkpointEpoch == |hist|
    ensures Rebuilt(d, hist) == Some(Base(d)) && SteadySince(d, hist)
  {
    hide SchemasOf, Base;
    assert Past(d, hist) == [];
    assert WritesOf([]) == [];
  }

  lemma RecoverKeepsRecords(s: State)
    requires Inv(s) && RecordsHold(s)
    ensures RecordsHold(Step(s, RecoverManifest))
  {
    hide Numbered, Accounted, DiskHolds, MemoryHolds, HasJobs, Recover, Rebuilt, SteadySince, NulFree, SchemasOf, Past;
    if s.pc.LogOpened? && Recover(s.disk).Some? {
      RecoveryIsExact(s.disk, s.hist);
      HasCheckpoint(s.disk, s.hist);
      var t := Step(s, RecoverManifest);
      SameRebuilt(s.disk, t.disk, s.hist);
    }
  }

  lemma WriteCheckpointKeepsRecords(s: State)
    requires Inv(s) && RecordsHold(s)
    ensures RecordsHold(Step(s, WriteCheckpoint))
  {
    hide Numbered, Accounted, HasJobs, Rebuilt, SteadySince, NulFree, SchemasOf, Past, DiskHolds, MemoryHolds;
    if s.pc.Idle? {
      var t := Step(s, WriteCheckpoint);
      LevelMemory(s.mem, s.hist);
      HasCheckpoint(s.disk, s.hist);
      if s.disk.manifest.checkpointEpoch == |s.hist| {
        NothingToReplay(s.disk, s.hist);
        NothingToReplay(t.disk, s.hist);
      } else {
        SameRebuilt(s.disk, t.disk, s.hist);
      }
    }
  }

  lemma RenameCheckpointKeepsRecords(s: State)
    requires Inv(s) && RecordsHold(s)
    ensures RecordsHold(Step(s, RenameCheckpointManifest))
  {
    hide Numbered, Accounted, HasJobs, Rebuilt, SteadySince, NulFree, SchemasOf, Past, DiskHolds, MemoryHolds;
    if s.pc.CheckpointWritten? {
      var t := Step(s, RenameCheckpointManifest);
      LevelMemory(s.mem, s.hist);
      HasCheckpoint(s.disk, s.hist);
      NothingToReplay(t.disk, s.hist);
      if s.disk.manifest.checkpointEpoch == |s.hist| { NothingToReplay(s.disk, s.hist); }
    }
  }

  lemma LogKeepsRecords(s: State, a: Action)
    requires Inv(s) && RecordsHold(s) && (a.LogCommit? || a.CrashInAppend?)
    ensures RecordsHold(Step(s, a))
  {
    hide Inv, Rebuilt, SteadySince, NulFree, SchemasOf, Past, PlanCall;
    var call := if a.LogCommit? then a.call else a.torn;
    var t := Step(s, a);
    SameRebuilt(s.disk, t.disk, t.hist);
    if s.pc.Idle? && PlanCall(s.mem, call).Some? { CommitKeepsRecords(s, call); }
  }

  lemma OtherKeepsRecords(s: State, a: Action)
    requires Inv(s) && RecordsHold(s)
    requires a.OpenLog? || a.FinishOpen? || a.ApplyInMemory? || a.RenameManifest? || a.Return? || a.TruncateLog? ||
             a.FinishCheckpoint? || a.Crash?
    ensures RecordsHold(Step(s, a))
  {
    hide Numbered, Accounted, DiskHolds, MemoryHolds, HasJobs, Recover, Rebuilt, SteadySince, NulFree, SchemasOf, Past,
        PlanCall;
    SameRebuilt(s.disk, Step(s, a).disk, s.hist);
  }

  lemma StepKeepsRecords(s: State, a: Action)
    requires Inv(s) && RecordsHold(s)
    ensures RecordsHold(Step(s, a))
  {
    hide Inv, RecordsHold, Step;
    match a
    case RecoverManifest => RecoverKeepsRecords(s);
    case LogCommit(_) => LogKeepsRecords(s, a);
    case CrashInAppend(_, _) => LogKeepsRecords(s, a);
    case WriteCheckpoint => WriteCheckpointKeepsRecords(s);
    case RenameCheckpointManifest => RenameCheckpointKeepsRecords(s);
    case _ => OtherKeepsRecords(s, a);
  }

  lemma {:induction false} RunKeepsRecords(s: State, actions: seq<Action>)
    requires Inv(s) && RecordsHold(s)
    ensures Inv(Run(s, actions)) && RecordsHold(Run(s, actions))
    decreases |actions|
  {
    hide Inv, RecordsHold, Step;
    if actions != [] {
      StepKeepsInv(s, actions[0]);
      StepKeepsRecords(s, actions[0]);
      RunKeepsRecords(Step(s, actions[0]), actions[1..]);
    }
  }

  lemma StartHoldsRecords()
    ensures RecordsHold(Start())
  {
    assert WritesOf([]) == [];
    NoCommits();
  }

  /** Over every run: if since the checkpoint no table's identity or vector columns were changed
      after the table was written, and the writes name their tenants, reopening succeeds, and
      it gives an idle engine's memory back whole, records included. Applying the same schema
      again, or one with other scalar and text columns, does no harm. */
  lemma SteadyRunRecovers(actions: seq<Action>)
    ensures var s := Run(Start(), actions);
            SteadySince(s.disk, s.hist) ==> Recover(s.disk).Some? && (s.pc.Idle? ==> Recover(s.disk) == Some(s.mem))
  {
    hide Inv, Run, Rebuilt, SteadySince, NulFree, SchemasOf, Past, Recover, MemoryHolds, Accounted, Numbered;
    StartHolds();
    StartHoldsRecords();
    RunKeepsRecords(Start(), actions);
    EveryRunRecovers(actions);
    IdleMemoryIsFresh(actions);
  }

  lemma {:induction false} SteadyIsNamed(hist: seq<Commit>, first: nat, i: nat)
    requires Steady(hist, first) && first <= i < |hist|
    ensures Named(hist[i].changes.writes)
    decreases |hist|
  {
    hide Spares, SchemasOf, TablesOf, Named;
    if i < |hist| - 1 { SteadyIsNamed(hist[..|hist| - 1], first, i); }
  }

  /** Applying a schema that keeps identity and vector columns keeps a stretch steady, whatever
      was written before. */
  lemma ReapplyKeepsSteady(hist: seq<Commit>, first: nat, c: Commit)
    requires Steady(hist, first) && first <= |hist| && c.changes.writes == NoWrites && |c.changes.schemas| == 1
    requires SameShape(Find(SchemasOf(hist), c.changes.schemas[0].name), Some(c.changes.schemas[0]))
    ensures Steady(hist + [c], first)
  {
    hide SchemasOf, TablesOf, Find;
    assert (hist + [c])[..|hist|] == hist;
  }
}
