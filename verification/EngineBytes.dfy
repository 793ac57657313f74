/** The engine over the bytes of its log: the step machine of `Engine` with every append, crash
    and reopening carried out on a file of `WalRuns`. What the engine takes for its log is, in
    every run, what a scan of those bytes gives. */
module EngineBytes {
  import opened Ordering
  import opened Bytes
  import opened WalFrame
  import opened Wal
  import WalRuns
  import opened EngineLog
  import Engine

  type Changes = Engine.Changes

  datatype Machine = Machine(engine: Engine.State, log: WalRuns.State<Changes>)

  datatype Action =
    | Do(step: Engine.Action)               // any step that does not append
    | Append(call: Engine.Call)
    | CrashAt(interrupted: Engine.Call, k: nat)  // the process dies after `k` bytes of the frame

  function Begin(): Machine
  {
    Machine(Engine.Start(), WalRuns.Initial())
  }

  /** A process that is down holds no handle. */
  function Settle(codec: Codec<Changes>, m: Machine): Machine
  {
    if m.engine.pc.Down? then m.(log := WalRuns.Next(codec, m.log, WalRuns.Crash)) else m
  }

  function Planned(m: Machine, call: Engine.Call): bool
  {
    m.engine.pc.Idle? && Engine.PlanCall(m.engine.mem, call).Some?
  }

  function FrameFor(m: Machine, call: Engine.Call): Commit<Changes>
    requires Planned(m, call)
  {
    ToLog(Engine.NextCommit(m.engine.mem, Engine.PlanCall(m.engine.mem, call).value.changes))
  }

  function Step(codec: Codec<Changes>, m: Machine, a: Action): Machine
  {
    match a
    case Do(step) =>
      if step.LogCommit? || step.CrashInAppend? then m
      else if step.OpenLog? then
        if !m.engine.pc.Down? then m else
        var log := WalRuns.Next(codec, m.log, WalRuns.OpenHandle(0));
        if 0 in log.handles then Machine(Engine.Step(m.engine, step), log) else m
      else if step.TruncateLog? && m.engine.pc.CheckpointManifest? then
        Machine(Engine.Step(m.engine, step), WalRuns.Next(codec, WalRuns.Initial(), WalRuns.OpenHandle(0)))
      else Settle(codec, m.(engine := Engine.Step(m.engine, step)))
    case Append(call) =>
      if !Planned(m, call) then m else
      var log := WalRuns.Next(codec, m.log, WalRuns.AppendThrough(0, FrameFor(m, call)));
      if |log.written| > |m.log.written| then Machine(Engine.Step(m.engine, Engine.LogCommit(call)), log)
      else m.(log := log)  // refused: too long, or out of LSNs
    case CrashAt(call, k) =>
      if !Planned(m, call) then m else
      var log := WalRuns.Next(codec, m.log, WalRuns.CrashInAppend(0, FrameFor(m, call), k));
      if |log.file| == |m.log.file| then Settle(codec, Machine(Engine.Step(m.engine, Engine.Crash), m.log))
      else Machine(Engine.Step(m.engine, Engine.CrashInAppend(call, |log.written| > |m.log.written|)), log)
  }

  function Run(codec: Codec<Changes>, m: Machine, actions: seq<Action>): Machine
    decreases |actions|
  {
    if actions == [] then m else Run(codec, Step(codec, m, actions[0]), actions[1..])
  }

  // ---------------------------------------------------------------- the bytes hold the log

  ghost predicate Matches(codec: Codec<Changes>, e: Engine.State, log: WalRuns.State<Changes>)
  {
    && WalRuns.Inv(codec, log) && log.written == ToLogs(e.disk.wal)
    && (e.disk.torn <==> log.file != Log(codec, log.written, 1, NoHash))
    && (if e.pc.Down? then log.handles == map[] else 0 in log.handles)
  }

  lemma EngineLogIsCommitted(e: Engine.State)
    requires Engine.Inv(e)
    ensures AllCommitted(ToLogs(e.disk.wal))
  {
    hide Engine.Accounted, Engine.HasJobs, Engine.PcHolds, Engine.SchemasOf, Engine.CheckpointHolds;
    var first := |e.hist| - |e.disk.wal|;
    forall i | 0 <= i < |e.disk.wal| ensures Committed(ToLogs(e.disk.wal)[i]) {
      assert e.disk.wal[i] == e.hist[first + i];
    }
  }

  lemma ToLogsGrows(cs: seq<Engine.Commit>, c: Engine.Commit)
    ensures ToLogs(cs + [c]) == ToLogs(cs) + [ToLog(c)]
  {
  }

  lemma WholeFile(codec: Codec<Changes>, log: WalRuns.State<Changes>)
    requires WalRuns.Inv(codec, log) && log.handles != map[]
    ensures log.file == Log(codec, log.written, 1, NoHash)
  {
  }

  lemma SettleMatches(codec: Codec<Changes>, e: Engine.State, f: Engine.State, log: WalRuns.State<Changes>)
    requires Lawful(codec) && Matches(codec, e, log) && f.disk.wal == e.disk.wal && f.disk.torn == e.disk.torn
    requires f.pc.Down? || !e.pc.Down?
    ensures var m := Settle(codec, Machine(f, log)); m.engine == f && Matches(codec, f, m.log)
  {
    hide WalRuns.Inv, Log, ToLogs;
    WalRuns.NextKeepsInv(codec, log, WalRuns.Crash);
  }

  lemma OpenMatches(codec: Codec<Changes>, e: Engine.State, log: WalRuns.State<Changes>)
    requires Lawful(codec) && Engine.Inv(e) && Matches(codec, e, log) && e.pc.Down?
    ensures var next := WalRuns.Next(codec, log, WalRuns.OpenHandle(0));
            0 in next.handles && Matches(codec, Engine.Step(e, Engine.OpenLog), next)
  {
    hide Engine.Inv, Log, ToLogs, Scan, Entries, AllCommitted, WalRuns.Inv;
    var next := WalRuns.Next(codec, log, WalRuns.OpenHandle(0));
    EngineLogIsCommitted(e);
    WalRuns.ScanOfState(codec, log);
    WalRuns.NextKeepsInv(codec, log, WalRuns.OpenHandle(0));
    assert 0 in next.handles;
    WholeFile(codec, next);
  }

  lemma FreshLogMatches(codec: Codec<Changes>, e: Engine.State)
    requires Lawful(codec) && e.pc.CheckpointManifest?
    ensures Matches(codec, Engine.Step(e, Engine.TruncateLog),
                    WalRuns.Next(codec, WalRuns.Initial(), WalRuns.OpenHandle(0)))
  {
    hide WalRuns.Inv, Log;
    var log := WalRuns.Initial<Changes>();
    var next := WalRuns.Next(codec, log, WalRuns.OpenHandle(0));
    WalRuns.InitialInv(codec);
    EmptyScan(codec, 0, NoHash);
    WalRuns.NextKeepsInv(codec, log, WalRuns.OpenHandle(0));
    assert 0 in next.handles;
    WholeFile(codec, next);
    assert ToLogs([]) == [];
  }

  lemma AppendMatches(codec: Codec<Changes>, m: Machine, call: Engine.Call)
    requires Lawful(codec) && Engine.Inv(m.engine) && Matches(codec, m.engine, m.log) && Planned(m, call)
    ensures Matches(codec, Step(codec, m, Append(call)).engine, Step(codec, m, Append(call)).log)
  {
    hide Engine.Inv, Log, ToLogs, Scan, Entries, AllCommitted, WalRuns.Inv, Wal.Append, FrameOf, Engine.PlanCall,
        WalRuns.NextFits;
    var c := Engine.NextCommit(m.engine.mem, Engine.PlanCall(m.engine.mem, call).value.changes);
    var event := WalRuns.AppendThrough(0, ToLog(c));
    var next := WalRuns.Next(codec, m.log, event);
    WalRuns.AppendShape(codec, m.log, 0, ToLog(c));
    WalRuns.NextKeepsInv(codec, m.log, event);
    ToLogsGrows(m.engine.disk.wal, c);
    WholeFile(codec, m.log);
    WholeFile(codec, next);
  }

  lemma CrashMatches(codec: Codec<Changes>, m: Machine, call: Engine.Call, k: nat)
    requires Lawful(codec) && Engine.Inv(m.engine) && Matches(codec, m.engine, m.log) && Planned(m, call)
    ensures Matches(codec, Step(codec, m, CrashAt(call, k)).engine, Step(codec, m, CrashAt(call, k)).log)
  {
    hide Engine.Inv, Log, ToLogs, Scan, Entries, AllCommitted, WalRuns.Inv, Wal.Append, FrameOf, Engine.PlanCall,
        WalRuns.NextFits;
    var c := Engine.NextCommit(m.engine.mem, Engine.PlanCall(m.engine.mem, call).value.changes);
    var event := WalRuns.CrashInAppend(0, ToLog(c), k);
    var next := WalRuns.Next(codec, m.log, event);
    WalRuns.AppendShape(codec, m.log, 0, ToLog(c));
    WalRuns.NextKeepsInv(codec, m.log, event);
    ToLogsGrows(m.engine.disk.wal, c);
    WholeFile(codec, m.log);
    if |next.file| == |m.log.file| {
      SettleMatches(codec, m.engine, Engine.Step(m.engine, Engine.Crash), m.log);
    } else {
      CrashedFile(codec, m.log, ToLog(c), k);
    }
  }

  /** A crash inside an append leaves a torn file, or, after the last byte, a whole one. */
  lemma CrashedFile(codec: Codec<Changes>, log: WalRuns.State<Changes>, c: Commit<Changes>, k: nat)
    requires Lawful(codec) && WalRuns.Inv(codec, log) && 0 in log.handles
    ensures var next := WalRuns.Next(codec, log, WalRuns.CrashInAppend(0, c, k));
            |next.file| != |log.file| ==>
              && next.handles == map[]
              && (next.file == Log(codec, next.written, 1, NoHash) <==> |next.written| > |log.written|)
              && next.written == if |next.written| > |log.written| then log.written + [c] else log.written
  {
    hide WalRuns.Inv, Log, Wal.Append, FrameOf, AllCommitted, Fits;
    WholeFile(codec, log);
    WalRuns.AppendShape(codec, log, 0, c);
    var next := WalRuns.Next(codec, log, WalRuns.CrashInAppend(0, c, k));
    if |next.written| > |log.written| {
      FittingHistory(codec, log);
      WalRuns.ExtendWritten(codec, log.written, c);
    }
  }

  lemma FittingHistory(codec: Codec<Changes>, log: WalRuns.State<Changes>)
    requires WalRuns.Inv(codec, log)
    ensures Fitting(codec, log.written, 1, NoHash)
  {
  }

  // ---------------------------------------------------------------- every run

  /** The engine step, if any, that a step of the machine takes. */
  function EngineSteps(codec: Codec<Changes>, m: Machine, a: Action): seq<Engine.Action>
  {
    var t := Step(codec, m, a);
    if t.engine == m.engine then []
    else
      match a
      case Do(step) => [step]
      case Append(call) => [Engine.LogCommit(call)]
      case CrashAt(call, k) =>
        if |t.log.file| == |m.log.file| then [Engine.Crash]
        else [Engine.CrashInAppend(call, |t.log.written| > |m.log.written|)]
  }

  function EngineRun(codec: Codec<Changes>, m: Machine, actions: seq<Action>): seq<Engine.Action>
    decreases |actions|
  {
    if actions == [] then []
    else EngineSteps(codec, m, actions[0]) + EngineRun(codec, Step(codec, m, actions[0]), actions[1..])
  }

  lemma OneEngineStep(codec: Codec<Changes>, m: Machine, a: Action)
    ensures Engine.Run(m.engine, EngineSteps(codec, m, a)) == Step(codec, m, a).engine
  {
    hide Engine.Step, Engine.PlanCall, Engine.Run, Wal.Append, OpenLog;
    Engine.RunNothing(m.engine);
    var steps := EngineSteps(codec, m, a);
    if steps != [] {
      assert steps == [steps[0]] + [];
      Engine.RunStep(m.engine, steps[0], []);
      Engine.RunNothing(Engine.Step(m.engine, steps[0]));
    }
  }

  lemma StepMatches(codec: Codec<Changes>, m: Machine, a: Action)
    requires Lawful(codec) && Engine.Inv(m.engine) && Matches(codec, m.engine, m.log)
    ensures var t := Step(codec, m, a); Engine.Inv(t.engine) && Matches(codec, t.engine, t.log)
  {
    hide Engine.Inv, Matches, Engine.Run;
    OneEngineStep(codec, m, a);
    Engine.RunKeepsInv(m.engine, EngineSteps(codec, m, a));
    match a
    case Do(step) => DoMatches(codec, m, step);
    case Append(call) => if Planned(m, call) { AppendMatches(codec, m, call); }
    case CrashAt(call, k) => if Planned(m, call) { CrashMatches(codec, m, call, k); }
  }

  lemma DoMatches(codec: Codec<Changes>, m: Machine, step: Engine.Action)
    requires Lawful(codec) && Engine.Inv(m.engine) && Matches(codec, m.engine, m.log)
    ensures var t := Step(codec, m, Do(step)); Matches(codec, t.engine, t.log)
  {
    hide Engine.Inv, Matches, WalRuns.Next, Engine.PlanCall, Engine.Recover, Engine.Applied;
    if step.OpenLog? {
      if m.engine.pc.Down? { OpenMatches(codec, m.engine, m.log); }
    } else if step.TruncateLog? && m.engine.pc.CheckpointManifest? {
      FreshLogMatches(codec, m.engine);
    } else if !step.LogCommit? && !step.CrashInAppend? {
      SettleMatches(codec, m.engine, Engine.Step(m.engine, step), m.log);
    }
  }

  lemma {:induction false} RunMatches(codec: Codec<Changes>, m: Machine, actions: seq<Action>)
    requires Lawful(codec) && Engine.Inv(m.engine) && Matches(codec, m.engine, m.log)
    ensures var t := Run(codec, m, actions); Engine.Inv(t.engine) && Matches(codec, t.engine, t.log)
    ensures Run(codec, m, actions).engine == Engine.Run(m.engine, EngineRun(codec, m, actions))
    decreases |actions|
  {
    hide Engine.Inv, Matches, Step, EngineSteps, Engine.Run;
    if actions == [] {
      Engine.RunNothing(m.engine);
    } else {
      var t := Step(codec, m, actions[0]);
      StepMatches(codec, m, actions[0]);
      OneEngineStep(codec, m, actions[0]);
      RunMatches(codec, t, actions[1..]);
      Engine.RunSplit(m.engine, EngineSteps(codec, m, actions[0]), EngineRun(codec, t, actions[1..]));
    }
  }

  /** Over every run on bytes: the engine is in a state that the engine's own steps reach, so
      that all that is proved of those holds; and scanning the file gives exactly the commits
      the engine takes for its log, with a torn tail exactly when the engine counts on one. */
  lemma EveryByteRun(codec: Codec<Changes>, actions: seq<Action>)
    requires Lawful(codec)
    ensures var m := Run(codec, Begin(), actions); var scan := Scan(codec, m.log.file, 0, NoHash);
            && m.engine == Engine.Run(Engine.Start(), EngineRun(codec, Begin(), actions))
            && scan.Scanned? && |scan.entries| == |m.engine.disk.wal|
            && (forall i | 0 <= i < |scan.entries| :: FromEntry(scan.entries[i]) == m.engine.disk.wal[i])
            && (scan.tornTail.Some? <==> m.engine.disk.torn)
  {
    hide Engine.Inv, Run, EngineRun, Scan, Entries, Log, WalRuns.Inv, AllCommitted, Engine.Run;
    Engine.StartHolds();
    BeginMatches(codec);
    RunMatches(codec, Begin(), actions);
    var m := Run(codec, Begin(), actions);
    EngineLogIsCommitted(m.engine);
    WalRuns.ScanOfState(codec, m.log);
    var scan := Scan(codec, m.log.file, 0, NoHash);
    forall i | 0 <= i < |scan.entries| ensures FromEntry(scan.entries[i]) == m.engine.disk.wal[i] {
      EntriesReadBack(codec, ToLogs(m.engine.disk.wal), 1, NoHash, i);
    }
  }

  lemma BeginMatches(codec: Codec<Changes>)
    ensures Matches(codec, Begin().engine, Begin().log)
  {
    WalRuns.InitialInv(codec);
    assert ToLogs([]) == [];
  }
}
