/** A table schema changed after the table was written: exactly when the database can still be
    opened, and with which records; and runs after which it never can. */
module EngineChanges {
  import opened Ordering
  import opened Schemas
  import opened Records
  import opened Texts
  import opened SchemaChanges
  import opened Engine
  import opened EngineRecords

  // ---------------------------------------------------------------- after any steady stretch

  /** The steps of a call, and then a crash. */
  function CallAndStop(call: Call): seq<Action>
  {
    [LogCommit(call), ApplyInMemory, RenameManifest, Return] + [Crash]
  }

  lemma StoppedAfter(s: State, call: Call)
    requires s.pc.Idle? && PlanCall(s.mem, call).Some?
    ensures var t, p := Run(s, CallAndStop(call)), PlanCall(s.mem, call).value;
            && t.pc.Down? && t.hist == s.hist + [NextCommit(s.mem, p.changes)]
            && t.disk.manifest.checkpointEpoch == s.mem.manifest.checkpointEpoch
            && t.disk.checkpoints == s.disk.checkpoints
  {
    hide PlanCall, Run, UpsertChange;
    RunSplit(s, [LogCommit(call), ApplyInMemory, RenameManifest, Return], [Crash]);
    RunFour(s, LogCommit(call), ApplyInMemory, RenameManifest, Return);
    var t := Run(s, [LogCommit(call), ApplyInMemory, RenameManifest, Return]);
    assert [Crash] == [Crash] + [];
    RunStep(t, Crash, []);
    RunNothing(Step(t, Crash));
  }

  lemma IdleLevels(s: State)
    requires Inv(s) && s.pc.Idle?
    ensures s.mem.manifest == s.disk.manifest && s.mem.manifest.schemas == SchemasOf(s.hist)
    ensures s.disk.manifest.checkpointEpoch <= |s.hist|
  {
    hide SchemasOf, JobsHold, CheckpointHolds;
  }

  lemma NamedPast(d: Disk, hist: seq<Commit>)
    requires SteadySince(d, hist)
    ensures forall i | 0 <= i < |Past(d, hist)| :: Named(WritesOf(Past(d, hist))[i])
  {
    hide Named, Steady;
    var first := d.manifest.checkpointEpoch;
    forall i | 0 <= i < |Past(d, hist)| ensures Named(WritesOf(Past(d, hist))[i]) {
      SteadyIsNamed(hist, first, first + i);
    }
  }

  /** In any run, after a steady stretch, a schema change that is accepted leaves the database
      openable if and only if it fits the writes since the checkpoint; and then the records are
      the live ones if and only if every live record written since has the same columns either
      way. */
  lemma ChangeReopens(actions: seq<Action>, after: TableSchema, receipts: seq<IdempotencyReceipt>)
    requires var s := Run(Start(), actions);
             s.pc.Idle? && SteadySince(s.disk, s.hist) && PlanCall(s.mem, ApplySchema(after, receipts)).Some?
    ensures var s := Run(Start(), actions);
            var r := Recover(Run(s, CallAndStop(ApplySchema(after, receipts))).disk);
            var base, ws, schemas := Base(s.disk), WritesOf(Past(s.disk, s.hist)), s.mem.manifest.schemas;
            && (r.Some? <==> ChangeFits(base, ws, after, KeepsIdentity(schemas, after)))
            && (r.Some? ==>
                  ((forall k :: LiveVersion(r.value.records, k) == LiveVersion(s.mem.records, k)) <==>
                   ColumnsAgree(base, AllOps(ws), s.mem.records, NamesIn(schemas, after.name), after)))
  {
    hide Inv, RecordsHold, Run, Recover, SteadySince, ChangeFits, ColumnsAgree, PlanCall, KeepsIdentity, AllOps,
         NamesIn, Start, WritesOf;
    var s, call := Run(Start(), actions), ApplySchema(after, receipts);
    StartHolds();
    StartHoldsRecords();
    RunKeepsRecords(Start(), actions);
    RunKeepsInv(s, CallAndStop(call));
    ChangedState(s, after, receipts);
  }

  lemma ChangedState(s: State, after: TableSchema, receipts: seq<IdempotencyReceipt>)
    requires Inv(s) && RecordsHold(s) && s.pc.Idle? && SteadySince(s.disk, s.hist)
    requires PlanCall(s.mem, ApplySchema(after, receipts)).Some?
    requires Inv(Run(s, CallAndStop(ApplySchema(after, receipts))))
    ensures var r := Recover(Run(s, CallAndStop(ApplySchema(after, receipts))).disk);
            var base, ws, schemas := Base(s.disk), WritesOf(Past(s.disk, s.hist)), s.mem.manifest.schemas;
            && (r.Some? <==> ChangeFits(base, ws, after, KeepsIdentity(schemas, after)))
            && (r.Some? ==>
                  ((forall k :: LiveVersion(r.value.records, k) == LiveVersion(s.mem.records, k)) <==>
                   ColumnsAgree(base, AllOps(ws), s.mem.records, NamesIn(schemas, after.name), after)))
  {
    hide Run, Recover, SteadySince, ChangeFits, ColumnsAgree, KeepsIdentity, AllOps, NamesIn, Numbered, HasJobs,
         DiskHolds, MemoryHolds, Accounted, NulFree, SchemasOf, ValidSchema, Compatible, ApplyAll, WritesOf, Upsert,
         CallAndStop, ApplyOps, WellNamed, NoLiveRow;
    var call := ApplySchema(after, receipts);
    var t, base, cs := Run(s, CallAndStop(call)), Base(s.disk), Past(s.disk, s.hist);
    var schemas, ws := SchemasOf(s.hist), WritesOf(cs);
    var kept := KeepsIdentity(schemas, after);
    IdleLevels(s);
    StoppedAfter(s, call);
    RecoveryIsExact(t.disk, t.hist);
    var c := t.hist[|s.hist|];
    SchemasOneMore(s.hist, c);
    OneMoreWrite(s, t, c);
    NamedPast(s.disk, s.hist);
    ValidNames(after);
    ChangedReplay(schemas, after, base, ws, kept);
    var changed := Upsert(schemas, after);
    ApplyAllSplit(changed, base, ws, [NoWrites]);
    if ApplyAll(changed, base, ws).Some? {
      NoWritesApply(changed, ApplyAll(changed, base, ws).value);
      ReplayIsOps(schemas, base, ws);
      ReplayIsOps(changed, base, ws);
      IdentityOrNoLiveRow(s.mem, after, receipts);
      ChangedRecords(schemas, after, base, AllOps(ws), kept);
    }
  }

  /** An accepted change keeps the identity columns unless the table has no live row. */
  lemma IdentityOrNoLiveRow(m: Memory, after: TableSchema, receipts: seq<IdempotencyReceipt>)
    requires PlanCall(m, ApplySchema(after, receipts)).Some?
    ensures KeepsIdentity(m.manifest.schemas, after) || NoLiveRow(m.records, after.name)
  {
    hide ValidSchema, SameDimensions;
  }

  lemma OneMoreWrite(s: State, t: State, c: Commit)
    requires t.hist == s.hist + [c] && c.changes.writes == NoWrites && s.disk.manifest.checkpointEpoch <= |s.hist|
    requires t.disk.manifest.checkpointEpoch == s.disk.manifest.checkpointEpoch
    ensures WritesOf(Past(t.disk, t.hist)) == WritesOf(Past(s.disk, s.hist)) + [NoWrites]
  {
    assert Past(t.disk, t.hist) == Past(s.disk, s.hist) + [c];
  }

  lemma ValidNames(s: TableSchema)
    requires ValidSchema(s)
    ensures WellNamed(s)
  {
    hide ColumnSet, VectorOk;
    assert forall i | 0 <= i < |s.name| :: IdentifierChar(s.name[i]);
  }

  // ---------------------------------------------------------------- sessions

  const FirstMemory := Memory(Manifest(0, 0, 1, []), [], map[], [], map[])

  /** The memory after calls that are all accepted. */
  function AfterCalls(m: Memory, calls: seq<Call>): Option<Memory>
    decreases |calls|
  {
    if calls == [] then Some(m) else
    var p := PlanCall(m, calls[0]);
    if p.None? then None else AfterCalls(Applied(m, NextCommit(m, p.value.changes), p.value), calls[1..])
  }

  function CallActions(calls: seq<Call>): seq<Action>
  {
    if calls == [] then [] else [LogCommit(calls[0]), ApplyInMemory, RenameManifest, Return] + CallActions(calls[1..])
  }

  /** Open a new directory, make the calls, and stop. */
  function Session(calls: seq<Call>): seq<Action>
  {
    [OpenLog, RecoverManifest, FinishOpen] + CallActions(calls) + [Crash]
  }

  lemma {:induction false} CallsRun(s: State, calls: seq<Call>)
    requires Inv(s) && s.pc.Idle? && AfterCalls(s.mem, calls).Some?
    ensures var t := Run(s, CallActions(calls));
            && Inv(t) && t.pc.Idle? && AfterCalls(s.mem, calls) == Some(t.mem)
            && t.disk.checkpoints == s.disk.checkpoints
    decreases |calls|
  {
    hide Inv, PlanCall, Applied, Run, Step, Stale, Recover;
    if calls == [] {
      RunNothing(s);
    } else {
      var first := [LogCommit(calls[0]), ApplyInMemory, RenameManifest, Return];
      var t := Run(s, first);
      UndisturbedCall(s, calls[0]);
      IdleIsFresh(s);
      RunKeepsInv(s, first);
      RunSplit(s, first, CallActions(calls[1..]));
      CallsRun(t, calls[1..]);
    }
  }

  lemma RecoverFresh()
    ensures Recover(Start().disk) == Some(FirstMemory)
  {
    var d := Start().disk;
    assert WritesOf([]) == [];
    assert Since(d.wal, 0) == [] && BaseCheckpoint(d) == NoCheckpoint;
    assert Upserts([], AllSchemas([])) == [] && Jobs.Replay(map[], AllEvents([])) == Some(map[]);
    assert AllReceipts([]) == [] && ApplyAll([], map[], []) == Some(map[]);
    assert d.manifest.(schemas := []) == d.manifest;
    var none: seq<Commit> := [];
    assert none + none == [] && AllReceipts(none) + AllReceipts(none) == [];
    assert Assemble(d.manifest, NoCheckpoint, none) == Some(FirstMemory);
  }

  lemma OpenFresh()
    ensures var s := Run(Start(), [OpenLog, RecoverManifest, FinishOpen]);
            s.pc.Idle? && s.mem == FirstMemory && s.disk.checkpoints == map[]
  {
    hide Run;
    var s := Start();
    assert [OpenLog, RecoverManifest, FinishOpen] == [OpenLog] + ([RecoverManifest] + ([FinishOpen] + []));
    RunStep(s, OpenLog, [RecoverManifest] + ([FinishOpen] + []));
    var t := Step(s, OpenLog);
    RunStep(t, RecoverManifest, [FinishOpen] + []);
    RecoverFresh();
    hide Recover;
    var u := Step(t, RecoverManifest);
    RunStep(u, FinishOpen, []);
    RunNothing(Step(u, FinishOpen));
  }

  /** After a session without a checkpoint, reopening succeeds if and only if the final
      schemas accept all its writes, from the first. */
  lemma SessionReopens(calls: seq<Call>)
    requires AfterCalls(FirstMemory, calls).Some?
    ensures var s, m := Run(Start(), Session(calls)), AfterCalls(FirstMemory, calls).value;
            && s.pc.Down? && s.hist == m.store
            && var built := ApplyAll(m.manifest.schemas, map[], WritesOf(m.store));
               && (Recover(s.disk).Some? <==> built.Some?)
               && (built.Some? ==> Recover(s.disk).value.records == built.value)
  {
    hide PlanCall, Applied, Run, Recover, ApplyAll, AfterCalls, CallActions, Inv, Step, WritesOf, Start;
    var opening := [OpenLog, RecoverManifest, FinishOpen];
    OpenFresh();
    StartHolds();
    RunKeepsInv(Start(), opening);
    var s := Run(Start(), opening);
    CallsRun(s, calls);
    var t := Run(s, CallActions(calls));
    RunSplit(Start(), opening, CallActions(calls));
    RunSplit(Start(), opening + CallActions(calls), [Crash]);
    assert [Crash] == [Crash] + [];
    RunStep(t, Crash, []);
    RunNothing(Step(t, Crash));
    NoCheckpointYet(t);
  }

  lemma NoCheckpointYet(t: State)
    requires Inv(t) && t.pc.Idle? && t.disk.checkpoints == map[]
    ensures var s := Step(t, Crash);
            && s.pc.Down? && s.hist == t.mem.store
            && var built := ApplyAll(t.mem.manifest.schemas, map[], WritesOf(t.mem.store));
               && (Recover(s.disk).Some? <==> built.Some?)
               && (built.Some? ==> Recover(s.disk).value.records == built.value)
  {
    hide JobsHold, Accounted, Numbered, HasJobs, Recover, ApplyAll, SchemasOf, WritesOf, CheckpointHolds, AllReceipts,
         Applied, PlanCall, SnapshotOf;
    RecoveryIsExact(t.disk, t.hist);
    assert t.disk.manifest.checkpointEpoch == 0;
    assert Past(t.disk, t.hist) == t.hist;
  }

  const Plain := TableSchema("docs", "id", "tenant", [], ["body"], [])
  const Embedded := TableSchema("docs", "id", "tenant", [], ["body"], [VectorColumn("emb", 8, ["body"])])

  lemma ExampleNames()
    ensures Identifier("docs") && Identifier("id") && Identifier("tenant") && ColumnName("body") && ColumnName("emb")
  {
    Word("docs");
    Word("id");
    Word("tenant");
    Word("body");
    Word("emb");
    assert "body"[0] == 'b' && "emb"[0] == 'e';
  }

  lemma Word(s: string)
    requires s != "" && forall i | 0 <= i < |s| :: 'a' <= s[i] <= 'z'
    ensures Identifier(s)
  {
    assert s[0] != '_';
  }

  lemma ExampleSchemasAreValid()
    ensures ValidSchema(Plain) && ValidSchema(Embedded)
  {
    hide Identifier, ColumnName;
    ExampleNames();
    ElementsOfOne("body");
    assert Elements<string>([]) == {};
    assert "body" != "id" && "body" != "tenant" && "id" != "tenant";
    ExampleVector();
  }

  lemma ExampleVector()
    ensures VectorOk(VectorColumn("emb", 8, ["body"]), {"id", "tenant"} + {} + {"body"})
  {
    hide Identifier, ColumnName;
    ExampleNames();
    ColumnsAreIdentifiers("body");
    assert "emb" != "id" && "emb" != "tenant" && "emb" != "body";
  }

  lemma ColumnsAreIdentifiers(s: string)
    requires ColumnName(s)
    ensures Identifier(s)
  {
  }

  lemma ElementsOfOne(s: string)
    ensures Elements([s]) == {s}
  {
    assert [s][0] in Elements([s]);
  }

  function Accept(m: Memory, call: Call): Memory
    requires PlanCall(m, call).Some?
  {
    Applied(m, NextCommit(m, PlanCall(m, call).value.changes), PlanCall(m, call).value)
  }

  lemma ThreeCalls(m: Memory, a: Call, b: Call, c: Call)
    requires PlanCall(m, a).Some? && PlanCall(Accept(m, a), b).Some? && PlanCall(Accept(Accept(m, a), b), c).Some?
    ensures AfterCalls(m, [a, b, c]) == Some(Accept(Accept(Accept(m, a), b), c))
  {
    hide PlanCall, Applied, AfterCalls;
    assert [a, b, c] == [a] + ([b] + ([c] + []));
    AfterOne(m, a, [b] + ([c] + []));
    AfterOne(Accept(m, a), b, [c] + []);
    AfterOne(Accept(Accept(m, a), b), c, []);
    AfterNone(Accept(Accept(Accept(m, a), b), c));
  }

  lemma FourCalls(m: Memory, a: Call, b: Call, c: Call, d: Call)
    requires PlanCall(m, a).Some? && PlanCall(Accept(m, a), b).Some? && PlanCall(Accept(Accept(m, a), b), c).Some?
    requires PlanCall(Accept(Accept(Accept(m, a), b), c), d).Some?
    ensures AfterCalls(m, [a, b, c, d]) == Some(Accept(Accept(Accept(Accept(m, a), b), c), d))
  {
    hide PlanCall, Applied, AfterCalls;
    assert [a, b, c, d] == [a] + [b, c, d];
    AfterOne(m, a, [b, c, d]);
    ThreeCalls(Accept(m, a), b, c, d);
  }

  lemma AfterOne(m: Memory, call: Call, rest: seq<Call>)
    requires PlanCall(m, call).Some?
    ensures AfterCalls(m, [call] + rest) == AfterCalls(Accept(m, call), rest)
  {
    hide PlanCall, Applied;
    assert ([call] + rest)[1..] == rest;
  }

  lemma AfterNone(m: Memory)
    ensures AfterCalls(m, []) == Some(m)
  {
  }

  lemma NewTable(s: TableSchema)
    requires ValidSchema(s)
    ensures PlanCall(FirstMemory, ApplySchema(s, [])).Some?
  {
    hide ValidSchema;
  }

  /** A refused write refuses the whole replay. */
  lemma {:induction false} RefusedInside(schemas: seq<TableSchema>, store: Store, a: seq<Writes>, w: Writes,
                                         b: seq<Writes>)
    requires ApplyAll(schemas, store, a).Some? && Apply(schemas, ApplyAll(schemas, store, a).value, w).None?
    ensures ApplyAll(schemas, store, a + ([w] + b)).None?
  {
    hide Apply;
    ApplyAllSplit(schemas, store, a, [w] + b);
    assert ([w] + b)[1..] == b;
  }

  lemma FindOnly(s: TableSchema)
    ensures Find([s], s.name) == Some(s) && Upserts([], [s]) == [s]
  {
    assert [s][1..] == [];
  }

  lemma SwapOnly(s: TableSchema, t: TableSchema)
    requires s.name == t.name
    ensures Upserts([s], [t]) == [t]
  {
    assert [t][1..] == [] && [s][1..] == [];
    assert [t] + [] == [t];
  }

  /** The session that applies a table, inserts one record and applies the table again. */
  function ChangeAfterInsert(before: TableSchema, input: RecordInput, after: TableSchema): seq<Call>
  {
    [ApplySchema(before, []), WriteRecords(Insert(input), []), ApplySchema(after, [])]
  }

  /** The insert fits the columns of the schema, and what it left dirty are columns of it. */
  predicate InsertFits(before: TableSchema, input: RecordInput, after: TableSchema)
  {
    DimensionsOk(after, input.fields) && DirtyStay(DirtyIn([before], [input]), after)
  }

  predicate DirtyStay(dirty: seq<Invalidation>, after: TableSchema)
  {
    forall i | 0 <= i < |dirty| :: dirty[i].feature in VectorNames(after)
  }

  lemma CompatibleKeepsIdentity(before: TableSchema, input: RecordInput, after: TableSchema)
    requires before.name == after.name == input.table && Mutate(map[], before, input).Some?
    requires Compatible([before], Mutate(map[], before, input).value, after)
    ensures after.primaryId == before.primaryId && after.tenant == before.tenant
  {
    hide IdentityOk, DimensionsOk, SameDimensions;
    FindOnly(before);
    assert KeyOf(input) in Mutate(map[], before, input).value;
  }

  lemma DirtyOfInput(before: TableSchema, input: RecordInput, x: Invalidation)
    requires before.name == input.table && x in DirtyIn([before], [input])
    ensures x.table == input.table && x.tenantId == input.tenantId && x.recordId == input.id
  {
    DirtyComesFrom([before], [input], x);
  }

  /** With the record alone in the store an invalidation resolves if and only if the record has
      the feature, even for a blank tenant. */
  lemma AloneResolves(store: Store, input: RecordInput, r: StoredRecord, x: Invalidation)
    requires store == map[KeyOf(input) := r] && !r.tombstoned
    requires x.table == input.table == r.table && x.tenantId == input.tenantId == r.tenantId
    requires x.recordId == input.id == r.recordId
    ensures Resolves(store, [input], x) <==> x.feature in r.features
  {
    hide RecordKey, Blank, Trim;
    var tenants := Tenants(store, [input], x);
    if Blank(x.tenantId) {
      assert tenants == if x.feature in r.features then {x.tenantId} else {};
    } else {
      assert tenants == {x.tenantId};
    }
  }

  lemma InsertReplays(before: TableSchema, input: RecordInput, after: TableSchema)
    requires before.name == after.name == input.table && Mutate(map[], before, input).Some?
    requires after.primaryId == before.primaryId && after.tenant == before.tenant
    ensures var w := Writes([], [input], [], DirtyIn([before], [input]));
            var r, live := Apply([after], map[], w), Mutate(map[], before, input).value;
            && (r.Some? <==> InsertFits(before, input, after))
            && (r.Some? ==> (r.value == live <==> VectorNames(before) == VectorNames(after)))
  {
    hide DimensionsOk, RecordKey, DirtyIn, VectorNames, Resolves, MutateAll, ReplaceAll, DeleteAll;
    var w := Writes([], [input], [], DirtyIn([before], [input]));
    OneMutation(after, input);
    NothingToApply([after], map[]);
    var next, live := Mutate(map[], after, input), Mutate(map[], before, input).value;
    var key := KeyOf(input);
    assert live == map[key := live[key]];
    if next.Some? {
      var r := next.value[key];
      assert next.value == map[key := r] && r == live[key].(features := VectorNames(after));
      NothingToApply([after], next.value);
      assert w.mutations + w.replacements == [input];
      forall i | 0 <= i < |w.invalidations|
        ensures Resolves(next.value, [input], w.invalidations[i]) <==> w.invalidations[i].feature in VectorNames(after)
      {
        DirtyOfInput(before, input, w.invalidations[i]);
        AloneResolves(next.value, input, r, w.invalidations[i]);
      }
    }
  }

  /** When both schemas are valid, the second is compatible and the insert is accepted, the
      session can be reopened if and only if the insert fits the second schema; and then the
      records are the live ones if and only if the vector columns have the same names. */
  lemma ChangeAfterInsertReopens(before: TableSchema, input: RecordInput, after: TableSchema)
    requires ValidSchema(before) && ValidSchema(after) && before.name == after.name == input.table
    requires Mutate(map[], before, input).Some? && Compatible([before], Mutate(map[], before, input).value, after)
    ensures var calls := ChangeAfterInsert(before, input, after);
            var live, r := AfterCalls(FirstMemory, calls), Recover(Run(Start(), Session(calls)).disk);
            && live.Some? && (r.Some? <==> InsertFits(before, input, after))
            && (r.Some? ==> (r.value.records == live.value.records <==> VectorNames(before) == VectorNames(after)))
  {
    CompatibleKeepsIdentity(before, input, after);
    InsertReplays(before, input, after);
    hide ValidSchema, Compatible, Mutate, Recover, Run, Session, Apply, ApplyAll, DirtyIn, InsertFits, VectorNames,
         AfterCalls, Find, ChangeAfterInsert;
    ChangeAfterInsertRuns(before, input, after);
    SessionReopens(ChangeAfterInsert(before, input, after));
    OnlyMiddleReplays([after], Writes([], [input], [], DirtyIn([before], [input])));
  }

  /** What the engine has in memory after that session. */
  lemma ChangeAfterInsertRuns(before: TableSchema, input: RecordInput, after: TableSchema)
    requires ValidSchema(before) && ValidSchema(after) && before.name == after.name == input.table
    requires Mutate(map[], before, input).Some? && Compatible([before], Mutate(map[], before, input).value, after)
    ensures var r := AfterCalls(FirstMemory, ChangeAfterInsert(before, input, after));
            && r.Some? && r.value.manifest.schemas == [after] && r.value.records == Mutate(map[], before, input).value
            && WritesOf(r.value.store) ==
               [NoWrites] + ([Writes([], [input], [], DirtyIn([before], [input]))] + [NoWrites])
  {
    hide ValidSchema, Compatible, Mutate, AfterCalls, DirtyIn;
    var a, b, c := ApplySchema(before, []), WriteRecords(Insert(input), []), ApplySchema(after, []);
    FindOnly(before);
    NewTable(before);
    var m1 := Accept(FirstMemory, a);
    assert m1.manifest.schemas == [before] && m1.records == map[];
    OneMutation(before, input);
    var m2 := Accept(m1, b);
    assert m2.manifest.schemas == [before] && m2.records == Mutate(map[], before, input).value;
    SwapOnly(before, after);
    ThreeCalls(FirstMemory, a, b, c);
  }

  lemma OnlyMiddleReplays(schemas: seq<TableSchema>, w: Writes)
    ensures ApplyAll(schemas, map[], [NoWrites] + ([w] + [NoWrites])) == Apply(schemas, map[], w)
  {
    hide Apply, ApplyAll;
    NoWritesApply(schemas, map[]);
    ApplyAllSplit(schemas, map[], [NoWrites], [w] + [NoWrites]);
    ApplyAllSplit(schemas, map[], [w], [NoWrites]);
    JustOneApply(schemas, map[], w);
    var r := Apply(schemas, map[], w);
    if r.Some? { NoWritesApply(schemas, r.value); }
  }

  lemma OneMutation(s: TableSchema, input: RecordInput)
    requires s.name == input.table
    ensures MutateAll([s], map[], [input]) == Mutate(map[], s, input)
  {
    hide Mutate;
    FindOnly(s);
    assert [input][1..] == [];
  }

  const Noted := RecordInput("docs", "t", "r", map["body" := Text("x")])
  const Dirty := Invalidation("docs", "t", "r", "emb", "Dirty")

  lemma NotedLeavesDirty()
    ensures DirtyIn([Embedded], [Noted]) == [Dirty]
  {
    FindOnly(Embedded);
    assert HasSource(Embedded.vectors[0], Noted.fields) by { assert Embedded.vectors[0].sources[0] in Noted.fields; }
    assert DirtyFeatures(Embedded.vectors, Noted) == [Dirty] by { assert Embedded.vectors[1..] == []; }
    assert [Noted][1..] == [] && [Dirty] + [] == [Dirty];
  }

  lemma NotedIsAccepted(s: TableSchema)
    requires s.primaryId == "id" && s.tenant == "tenant"
    requires forall i | 0 <= i < |s.vectors| :: s.vectors[i].name == "emb"
    ensures var r := Mutate(map[], s, Noted);
            r.Some? && KeyOf(Noted) in r.value && r.value[KeyOf(Noted)].features == VectorNames(s)
  {
    hide RecordKey;
    assert forall i | 0 <= i < |s.vectors| :: FitsColumn(s.vectors[i], Noted.fields);
  }

  /** A vector column dropped after a write that left it dirty: the schema is accepted, and
      the database cannot be opened again, ever. */
  lemma DroppedColumnIsFinal(later: seq<Action>)
    ensures var calls := ChangeAfterInsert(Embedded, Noted, Plain);
            AfterCalls(FirstMemory, calls).Some? && !Run(Run(Start(), Session(calls)), later).pc.Idle?
  {
    hide Recover, Run, Session, ValidSchema, DirtyIn, Mutate, AfterCalls;
    ExampleSchemasAreValid();
    NotedLeavesDirty();
    NotedIsAccepted(Embedded);
    FindOnly(Embedded);
    assert [Dirty][0].feature !in VectorNames(Plain);
    ChangeAfterInsertReopens(Embedded, Noted, Plain);
    StaysDown(ChangeAfterInsert(Embedded, Noted, Plain), later);
  }

  /** A vector column declared after a write that used its name with other dimensions. */
  lemma LateColumnIsFinal(later: seq<Action>)
    ensures var input := RecordInput("docs", "t", "r", map["emb" := Numbers(["1", "2", "3"])]);
            var calls := ChangeAfterInsert(Plain, input, Embedded);
            && AfterCalls(FirstMemory, calls).Some?
            && !Run(Run(Start(), Session(calls)), later).pc.Idle?
  {
    hide Recover, Run, Session, ValidSchema, DirtyIn, AfterCalls;
    var input := RecordInput("docs", "t", "r", map["emb" := Numbers(["1", "2", "3"])]);
    ExampleSchemasAreValid();
    FindOnly(Plain);
    assert Mutate(map[], Plain, input).Some?;
    assert Compatible([Plain], Mutate(map[], Plain, input).value, Embedded);
    assert !FitsColumn(Embedded.vectors[0], input.fields);
    ChangeAfterInsertReopens(Plain, input, Embedded);
    StaysDown(ChangeAfterInsert(Plain, input, Embedded), later);
  }

  /** A vector column added after a write: reopening succeeds, with other records. */
  lemma AddedColumnChangesRecords()
    ensures var calls := ChangeAfterInsert(Plain, Noted, Embedded);
            var live, r := AfterCalls(FirstMemory, calls), Recover(Run(Start(), Session(calls)).disk);
            live.Some? && r.Some? && r.value.records != live.value.records
  {
    hide Recover, Run, Session, ValidSchema, Mutate, AfterCalls;
    ExampleSchemasAreValid();
    NotedIsAccepted(Plain);
    FindOnly(Plain);
    assert DirtyFeatures(Plain.vectors, Noted) == [];
    assert DirtyIn([Plain], [Noted]) == [] by { assert [Noted][1..] == []; }
    assert FitsColumn(Embedded.vectors[0], Noted.fields);
    assert Embedded.vectors[0].name in VectorNames(Embedded) && VectorNames(Plain) == {};
    ChangeAfterInsertReopens(Plain, Noted, Embedded);
  }

  /** The text column has become the primary id. */
  const Renamed := TableSchema("docs", "body", "tenant", [], [], [])

  const Gone := RecordDeletion("docs", "t", "r", "gone")

  lemma RenamedIsValid()
    ensures ValidSchema(Renamed)
  {
    hide Identifier, ColumnName;
    ExampleNames();
    ColumnsAreIdentifiers("body");
    assert "body" != "tenant";
  }

  lemma NotedIsDeleted(store: Store)
    requires KeyOf(Noted) in store && store.Keys == {KeyOf(Noted)} && !store[KeyOf(Noted)].tombstoned
    ensures var r := DeleteAll([Plain], store, [Gone]); r.Some? && NoLiveRow(r.value, "docs")
  {
    hide RecordKey;
    FindOnly(Plain);
    assert [Gone][1..] == [];
    assert !Blank("r") && !Blank("t");
  }

  lemma NotedIsAlone()
    ensures var r := Mutate(map[], Plain, Noted);
            r.Some? && r.value.Keys == {KeyOf(Noted)} && !r.value[KeyOf(Noted)].tombstoned
    ensures DirtyIn([Plain], [Noted]) == []
    ensures Apply([Renamed], map[], Writes([], [Noted], [], [])).None?
  {
    hide RecordKey;
    FindOnly(Plain);
    FindOnly(Renamed);
    NothingToApply([Renamed], map[]);
    assert DirtyFeatures(Plain.vectors, Noted) == [];
    assert [Noted][1..] == [];
    assert Noted.fields["body"] == Text("x") && "x" != "r";
  }

  /** An identity column renamed to one that a write since the checkpoint used otherwise, once
      the record is deleted again. */
  lemma RenamedIdentityIsFinal(later: seq<Action>)
    ensures var calls := [ApplySchema(Plain, []), WriteRecords(Insert(Noted), []), WriteRecords(Remove(Gone), []),
                          ApplySchema(Renamed, [])];
            AfterCalls(FirstMemory, calls).Some? && !Run(Run(Start(), Session(calls)), later).pc.Idle?
  {
    hide Recover, Run, Session, ValidSchema, Apply, DirtyIn, Mutate, AfterCalls, DeleteAll, SameDimensions, NoLiveRow;
    var a, b := ApplySchema(Plain, []), WriteRecords(Insert(Noted), []);
    var c, d := WriteRecords(Remove(Gone), []), ApplySchema(Renamed, []);
    ExampleSchemasAreValid();
    RenamedIsValid();
    NewTable(Plain);
    NotedIsAlone();
    var m1 := Accept(FirstMemory, a);
    FindOnly(Plain);
    assert m1.manifest.schemas == [Plain] && m1.records == map[];
    OneMutation(Plain, Noted);
    var m2 := Accept(m1, b);
    var store := Mutate(map[], Plain, Noted).value;
    assert m2.manifest.schemas == [Plain] && m2.records == store;
    NotedIsDeleted(store);
    var m3 := Accept(m2, c);
    assert m3.manifest.schemas == [Plain] && m3.records == DeleteAll([Plain], store, [Gone]).value;
    SwapOnly(Plain, Renamed);
    var m4 := Accept(m3, d);
    FourCalls(FirstMemory, a, b, c, d);
    SessionReopens([a, b, c, d]);
    var rest := [Writes([], [], [Gone], [])] + [NoWrites];
    assert WritesOf(m4.store) == [NoWrites] + ([Writes([], [Noted], [], [])] + rest);
    NoWritesApply([Renamed], map[]);
    RefusedInside([Renamed], map[], [NoWrites], Writes([], [Noted], [], []), rest);
    StaysDown([a, b, c, d], later);
  }

  const Unnamed := RecordInput("docs", " ", "r", map["body" := Text("x")])

  /** The record of a tenant, but for its fields. */
  function Headed(tenant: string): StoredRecord
  {
    StoredRecord("docs", tenant, "r", map[], VectorNames(Embedded), false)
  }

  lemma UnnamedIsAccepted(store: Store)
    requires KeyOf(Unnamed) !in store
    ensures var r := Mutate(store, Embedded, Unnamed);
            && r.Some? && r.value.Keys == store.Keys + {KeyOf(Unnamed)}
            && (forall k | k in store :: r.value[k] == store[k])
            && r.value[KeyOf(Unnamed)].(fields := map[]) == Headed(" ")
  {
    hide RecordKey;
    assert FitsColumn(Embedded.vectors[0], Unnamed.fields);
  }

  lemma UnnamedLeavesDirty()
    ensures DirtyIn([Embedded], [Unnamed]) == [Dirty.(tenantId := " ")]
  {
    var x := Dirty.(tenantId := " ");
    FindOnly(Embedded);
    assert Embedded.vectors[0].sources[0] in Unnamed.fields;
    assert HasSource(Embedded.vectors[0], Unnamed.fields);
    assert DirtyFeatures(Embedded.vectors, Unnamed) == [x] by { assert Embedded.vectors[1..] == []; }
    assert [Unnamed][1..] == [] && [x] + [] == [x];
  }

  /** Two records of the same id, one of a blank tenant: the replay cannot tell whose feature
      the second write left dirty. */
  lemma UnnamedIsRefused(store: Store)
    requires KeyOf(Noted) in store && KeyOf(Unnamed) !in store
    requires store[KeyOf(Noted)].(fields := map[]) == Headed("t")
    ensures Mutate(store, Embedded, Unnamed).Some?
    ensures MutateAll([Embedded], store, [Unnamed]) == Mutate(store, Embedded, Unnamed)
    ensures Apply([Embedded], store, Writes([], [Unnamed], [], [Dirty.(tenantId := " ")])).None?
  {
    UnnamedIsAccepted(store);
    hide RecordKey, Mutate;
    var x, stored := Dirty.(tenantId := " "), Mutate(store, Embedded, Unnamed).value;
    FindOnly(Embedded);
    assert [Unnamed][1..] == [];
    NothingToApply([Embedded], store);
    NothingToApply([Embedded], stored);
    var w := Writes([], [Unnamed], [], [x]);
    BlankSpace();
    var tenants := Tenants(stored, w.mutations + w.replacements, x);
    assert Embedded.vectors[0].name in VectorNames(Embedded);
    assert stored[KeyOf(Noted)].tenantId in tenants && stored[KeyOf(Unnamed)].tenantId in tenants;
    assert {"t", " "} <= tenants;
    SubsetCount({"t", " "}, tenants);
    assert !Resolves(stored, w.mutations + w.replacements, w.invalidations[0]);
  }

  lemma BlankSpace()
    ensures Blank(" ") && !Blank("t")
  {
    assert " "[1..] == "";
  }

  lemma NotedHeader()
    ensures var store := Mutate(map[], Embedded, Noted);
            && store.Some? && KeyOf(Noted) in store.value && KeyOf(Unnamed) !in store.value
            && store.value[KeyOf(Noted)].(fields := map[]) == Headed("t")
  {
    assert FitsColumn(Embedded.vectors[0], Noted.fields);
    assert KeyOf(Noted)[5] == 't' && KeyOf(Unnamed)[5] == ' ';
  }

  /** Tenants must be named too: an insert for a blank tenant beside the same id of another
      tenant is accepted, and the database cannot be opened again. */
  lemma BlankTenantIsFinal(later: seq<Action>)
    ensures var calls := [ApplySchema(Embedded, []), WriteRecords(Insert(Noted), []),
                          WriteRecords(Insert(Unnamed), [])];
            AfterCalls(FirstMemory, calls).Some? && !Run(Run(Start(), Session(calls)), later).pc.Idle?
  {
    hide Recover, Run, Session, ValidSchema, Apply, DirtyIn, Mutate, AfterCalls, Compatible;
    var a, b, c := ApplySchema(Embedded, []), WriteRecords(Insert(Noted), []), WriteRecords(Insert(Unnamed), []);
    ExampleSchemasAreValid();
    NotedHeader();
    NotedLeavesDirty();
    UnnamedLeavesDirty();
    FindOnly(Embedded);
    NewTable(Embedded);
    var m1 := Accept(FirstMemory, a);
    assert m1.manifest.schemas == [Embedded] && m1.records == map[];
    OneMutation(Embedded, Noted);
    var m2 := Accept(m1, b);
    var store := Mutate(map[], Embedded, Noted).value;
    assert m2.manifest.schemas == [Embedded] && m2.records == store;
    UnnamedIsRefused(store);
    var m3 := Accept(m2, c);
    ThreeCalls(FirstMemory, a, b, c);
    SessionReopens([a, b, c]);
    var w, x := Writes([], [Noted], [], [Dirty]), Writes([], [Unnamed], [], [Dirty.(tenantId := " ")]);
    assert WritesOf(m3.store) == ([NoWrites] + [w]) + ([x] + []);
    NotedReplays(w);
    NoWritesApply([Embedded], map[]);
    ApplyAllSplit([Embedded], map[], [NoWrites], [w]);
    JustOneApply([Embedded], map[], w);
    RefusedInside([Embedded], map[], [NoWrites] + [w], x, []);
    StaysDown([a, b, c], later);
  }

  lemma NotedReplays(w: Writes)
    requires w == Writes([], [Noted], [], [Dirty])
    ensures Apply([Embedded], map[], w) == Mutate(map[], Embedded, Noted)
  {
    hide Apply, Mutate, DirtyIn, MutateAll;
    NotedHeader();
    NotedLeavesDirty();
    OneMutation(Embedded, Noted);
    BlankSpace();
    PlannedReplays([Embedded], map[], Insert(Noted));
  }

  lemma StaysDown(calls: seq<Call>, later: seq<Action>)
    requires AfterCalls(FirstMemory, calls).Some? && Recover(Run(Start(), Session(calls)).disk).None?
    ensures !Run(Run(Start(), Session(calls)), later).pc.Idle?
  {
    hide Recover, Run, Session, AfterCalls, Step;
    SessionReopens(calls);
    RefusedForGood(Run(Start(), Session(calls)), later);
  }
}
