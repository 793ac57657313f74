/** Several handles of one process on one directory: a handle can be cloned, the clones share the
    directory's lock, and each keeps its own memory (crates/tracedb-query/src/lib.rs). They look
    at the log through cached tails (`WalTails`). Calls run one at a time. The question is which
    commits a reopening would count. */
module EngineClones {
  import opened Ordering
  import opened Bytes
  import opened Schemas
  import opened Records
  import opened Engine
  import opened WalTails
  import EngineChanges
  import EngineLog
  import Jobs
  import Wal
  import WalFrame

  type Codec = WalFrame.Codec<Changes>

  /** The system is `disk` without its log, the file and tails of `log`, and `handles`; `disk.wal` are
      the commits appended since the file was last truncated. `adopted` are the handles that took
      over a manifest ahead of their records, or descend from one; `tainted` the epochs whose
      checkpoint file was last written by such a handle. */
  datatype Process = Process(disk: Disk, log: Shared, handles: map<nat, Memory>, hist: seq<Commit>,
                             adopted: set<nat>, tainted: set<nat>)

  datatype Event =
    | Clone(h: nat, copy: nat)
    | Make(h: nat, call: Call)
    | TakeCheckpoint(h: nat)
    | Publish(h: nat, parent: nat, again: bool)  // the segment is published already, or is not
    | Stop
    | Reopen(h: nat)

  function Flag(flags: set<nat>, x: nat, on: bool): set<nat>
  {
    if on then flags + {x} else flags - {x}
  }

  function AfterClone(p: Process, h: nat, copy: nat): Process
  {
    if h !in p.handles || copy in p.handles then p
    else p.(handles := p.handles[copy := p.handles[h]], log := Share(p.log, h, copy),
            adopted := Flag(p.adopted, copy, h in p.adopted))
  }

  /** Look at the log, test for staleness, check, append, apply, rename the manifest; a call that
      ends early leaves what it saw of the log and nothing else. */
  function AfterCall(codec: Codec, p: Process, h: nat, call: Call): Process
  {
    if h !in p.handles then p else
    var m, looked := p.handles[h], Look(codec, p.log, h);
    if looked.None? then p else
    var planned, seen := PlanCall(m, call), p.(log := looked.value);
    if Newer(p.disk.manifest, TailOf(seen.log, h).lastEpoch, m) || planned.None? then seen else
    var c := NextCommit(m, planned.value.changes);
    var log := AppendVia(codec, seen.log, h, EngineLog.ToLog(c));
    if log.None? then seen else Accepted(p, log.value, h, c, planned.value)
  }

  function Accepted(p: Process, log: Shared, h: nat, c: Commit, planned: Planned): Process
    requires h in p.handles
  {
    var m := Applied(p.handles[h], c, planned);
    p.(disk := p.disk.(wal := p.disk.wal + [c], manifest := m.manifest), log := log,
       handles := p.handles[h := m], hist := p.hist + [c])
  }

  function AfterCheckpoint(p: Process, h: nat): Process
  {
    if h !in p.handles then p else
    var epoch, (d, m) := p.handles[h].manifest.latestEpoch, CheckpointDone(p.disk, p.handles[h]);
    p.(disk := d, handles := p.handles[h := m], tainted := Flag(p.tainted, epoch, h in p.adopted),
       log := if p.disk.manifest.latestEpoch == epoch then Truncate(p.log, h) else p.log)
  }

  /** Publishing takes over the durable manifest, whatever the handle's records hold. */
  function AfterPublish(p: Process, h: nat, parent: nat, again: bool): Process
  {
    var man := p.disk.manifest;
    if h !in p.handles || parent != man.generation then p else
    var m := if again then man else man.(generation := man.generation + 1);
    p.(disk := p.disk.(manifest := m), handles := p.handles[h := p.handles[h].(manifest := m)],
       adopted := if p.handles[h].manifest.latestEpoch < man.latestEpoch then p.adopted + {h} else p.adopted)
  }

  /** The commits that a scan gives. */
  function CommitsIn(codec: Codec, file: seq<Byte>): Option<seq<Commit>>
  {
    var scan := Wal.Scan(codec, file, 0, WalFrame.NoHash);
    if scan.Failed? then None
    else Some(seq(|scan.entries|, i requires 0 <= i < |scan.entries| => EngineLog.FromEntry(scan.entries[i])))
  }

  function AfterReopen(codec: Codec, p: Process, h: nat): Process
  {
    var found, commits := Wal.OpenLog(codec, p.log.file), CommitsIn(codec, p.log.file);
    if p.handles != map[] || found.OpenFailed? || commits.None? then p else
    var d := p.disk.(wal := commits.value);
    if Recover(d).None? then p.(log := p.log.(file := found.bytes)) else
    var m := Recover(d).value;
    Process(Levelling(d, m), OpenedBy(p.log, h, found.bytes, found.tail), map[h := m], p.hist,
            if Tainted(p) then {h} else {}, p.tainted)
  }

  function Next(codec: Codec, p: Process, e: Event): Process
  {
    match e
    case Clone(h, copy) => AfterClone(p, h, copy)
    case Make(h, call) => AfterCall(codec, p, h, call)
    case TakeCheckpoint(h) => AfterCheckpoint(p, h)
    case Publish(h, parent, again) => AfterPublish(p, h, parent, again)
    case Stop => p.(handles := map[], log := Closed(p.log), adopted := {})
    case Reopen(h) => AfterReopen(codec, p, h)
  }

  /** The checkpoint that the manifest names was last written by an adopted handle. */
  predicate Tainted(p: Process)
  {
    p.disk.manifest.checkpointEpoch > 0 && p.disk.manifest.checkpointEpoch in p.tainted
  }

  function Run(codec: Codec, p: Process, events: seq<Event>): Process
    decreases |events|
  {
    if events == [] then p else Run(codec, Next(codec, p, events[0]), events[1..])
  }

  const NewDirectory := Process(Start().disk, NewLog, map[], [], {}, {})

  /** The commits that a reopening goes by: those of the checkpoint, and those the log gives past
      it; `None` when the log cannot be scanned. */
  function Counted(codec: Codec, p: Process): Option<seq<Commit>>
  {
    var commits := CommitsIn(codec, p.log.file);
    if commits.None? then None
    else Some(BaseCheckpoint(p.disk).store + Since(commits.value, p.disk.manifest.checkpointEpoch))
  }

  /** A reopening goes by these commits, or does not get beyond the log. */
  lemma ReopeningCounts(codec: Codec, p: Process, h: nat)
    requires p.handles == map[]
    ensures var q := AfterReopen(codec, p, h);
            q.handles != map[] ==> h in q.handles && Counted(codec, p) == Some(q.handles[h].store)
  {
    hide ApplyAll, Upserts, AllSchemas, AllEvents, AllReceipts, Since, CommitsIn, Wal.OpenLog;
  }

  // ---------------------------------------------------------------- invariant

  /** Whole up to this epoch, or, when it is not, short of it. */
  predicate StoreOk(store: seq<Commit>, epoch: nat, hist: seq<Commit>, missing: bool)
  {
    epoch <= |hist| && if missing then |store| < epoch else store == hist[..epoch]
  }

  ghost predicate CheckpointsOk(checkpoints: map<nat, Checkpoint>, hist: seq<Commit>, tainted: set<nat>)
  {
    forall e | e in checkpoints :: checkpoints[e].epoch == e && StoreOk(checkpoints[e].store, e, hist, e in tainted)
  }

  ghost predicate DiskOk(d: Disk, hist: seq<Commit>)
  {
    var man, first := d.manifest, |hist| - |d.wal|;
    && man.latestEpoch == |hist| && 0 <= first <= man.checkpointEpoch <= |hist| && d.wal == hist[first..]
    && (man.checkpointEpoch > 0 ==> man.checkpointEpoch in d.checkpoints)
  }

  predicate HandleOk(m: Memory, checkpointEpoch: nat, hist: seq<Commit>, missing: bool)
  {
    StoreOk(m.store, m.manifest.latestEpoch, hist, missing) && m.manifest.checkpointEpoch <= checkpointEpoch
  }

  ghost predicate HandlesOk(handles: map<nat, Memory>, checkpointEpoch: nat, hist: seq<Commit>, adopted: set<nat>)
  {
    adopted <= handles.Keys && forall h | h in handles :: HandleOk(handles[h], checkpointEpoch, hist, h in adopted)
  }

  ghost predicate EpochsOk(p: Process)
  {
    && Numbered(p.hist) && DiskOk(p.disk, p.hist) && CheckpointsOk(p.disk.checkpoints, p.hist, p.tainted)
    && HandlesOk(p.handles, p.disk.manifest.checkpointEpoch, p.hist, p.adopted)
  }

  /** A handle at the durable epoch that never adopted has looked at the log since it was truncated,
      or nothing was appended since. */
  predicate LooksOk(log: Shared, handles: map<nat, Memory>, n: nat, adopted: set<nat>)
  {
    forall h | h in handles :: LookOk(log, h, handles[h].manifest.latestEpoch == n && h !in adopted)
  }

  predicate LookOk(log: Shared, h: nat, level: bool)
  {
    level && CellOf(log, h) !in log.current ==> log.file == []
  }

  ghost predicate LogOk(codec: Codec, p: Process)
  {
    && SharedOk(codec, p.log, EngineLog.ToLogs(p.disk.wal), |p.hist|) && p.log.cellOf.Keys == p.handles.Keys
    && LooksOk(p.log, p.handles, |p.hist|, p.adopted)
  }

  ghost predicate ProcessOk(codec: Codec, p: Process)
  {
    EpochsOk(p) && LogOk(codec, p)
  }

  lemma StoreStaysOk(store: seq<Commit>, epoch: nat, hist: seq<Commit>, missing: bool, c: Commit)
    requires StoreOk(store, epoch, hist, missing)
    ensures StoreOk(store, epoch, hist + [c], missing)
  {
    assert (hist + [c])[..epoch] == hist[..epoch];
  }

  lemma CheckpointsStayOk(checkpoints: map<nat, Checkpoint>, hist: seq<Commit>, tainted: set<nat>, c: Commit)
    requires CheckpointsOk(checkpoints, hist, tainted)
    ensures CheckpointsOk(checkpoints, hist + [c], tainted)
  {
    hide StoreOk;
    forall e | e in checkpoints ensures StoreOk(checkpoints[e].store, e, hist + [c], e in tainted) {
      StoreStaysOk(checkpoints[e].store, e, hist, e in tainted, c);
    }
  }

  lemma HandleStaysOk(m: Memory, ck: nat, hist: seq<Commit>, missing: bool, c: Commit)
    requires HandleOk(m, ck, hist, missing)
    ensures HandleOk(m, ck, hist + [c], missing)
  {
    hide StoreOk;
    StoreStaysOk(m.store, m.manifest.latestEpoch, hist, missing, c);
  }

  /** The handle that made the call. */
  lemma CallerOk(m: Memory, ck: nat, hist: seq<Commit>, missing: bool, c: Commit, n: Memory)
    requires HandleOk(m, ck, hist, missing) && m.manifest.latestEpoch == |hist|
    requires n.store == m.store + [c] && n.manifest.latestEpoch == |hist| + 1
    requires n.manifest.checkpointEpoch == m.manifest.checkpointEpoch
    ensures HandleOk(n, ck, hist + [c], missing)
  {
    assert hist[..|hist|] == hist;
    assert (hist + [c])[..|hist| + 1] == hist + [c];
  }

  lemma OneMoreNumbered(hist: seq<Commit>, c: Commit)
    requires Numbered(hist) && c.epoch == |hist| + 1
    ensures Numbered(hist + [c])
  {
  }

  lemma LogGrown(d: Disk, hist: seq<Commit>, c: Commit, man: Manifest)
    requires DiskOk(d, hist) && man.latestEpoch == |hist| + 1 && man.checkpointEpoch == d.manifest.checkpointEpoch
    ensures DiskOk(d.(wal := d.wal + [c], manifest := man), hist + [c])
  {
    var first := |hist| - |d.wal|;
    assert (hist + [c])[first..] == hist[first..] + [c];
  }

  /** A call that commits nothing changes at most what its handle saw of the log; one that commits
      was not stale and appended its frame. */
  lemma CallShape(codec: Codec, p: Process, h: nat, call: Call)
    requires h in p.handles
    ensures var q, m, looked := AfterCall(codec, p, h, call), p.handles[h], Look(codec, p.log, h);
            if q.hist == p.hist then q == p.(log := q.log) && (looked.Some? ==> q.log == looked.value)
              && (looked.None? ==> q.log == p.log)
            else
              && looked.Some? && PlanCall(m, call).Some?
              && !Newer(p.disk.manifest, TailOf(looked.value, h).lastEpoch, m)
              && var planned := PlanCall(m, call).value;
                 var c := NextCommit(m, planned.changes);
                 var log := AppendVia(codec, looked.value, h, EngineLog.ToLog(c));
                 log.Some? && q == Accepted(p, log.value, h, c, planned)
  {
    hide PlanCall, Applied, Look, AppendVia, Newer, EngineLog.ToLog;
  }

  lemma LevelWhenFresh(d: Disk, lastEpoch: Option<nat>, m: Memory, hist: seq<Commit>, missing: bool)
    requires DiskOk(d, hist) && HandleOk(m, d.manifest.checkpointEpoch, hist, missing)
    requires !Newer(d.manifest, lastEpoch, m)
    ensures m.manifest.latestEpoch == |hist| && m.manifest.checkpointEpoch == d.manifest.checkpointEpoch
  {
  }

  /** What the cached tail says of the last epoch makes no difference to the staleness test: the
      manifest is never behind it. */
  lemma CachedEpochIsEnough(codec: Codec, p: Process, h: nat)
    requires ProcessOk(codec, p) && h in p.handles
    ensures Newer(p.disk.manifest, TailOf(p.log, h).lastEpoch, p.handles[h]) <==> Stale(p.disk, p.handles[h])
  {
    hide SharedOk, LooksOk, CheckpointsOk, HandlesOk;
    CellEpoch(codec, p.log, EngineLog.ToLogs(p.disk.wal), |p.hist|, h);
    LastOfLog(p.disk, p.hist);
  }

  lemma LastOfLog(d: Disk, hist: seq<Commit>)
    requires DiskOk(d, hist) && Numbered(hist)
    ensures d.wal != [] ==> d.wal[|d.wal| - 1].epoch == |hist|
  {
    if d.wal != [] { assert d.wal[|d.wal| - 1] == hist[|hist| - 1]; }
  }

  lemma AcceptedShape(p: Process, log: Shared, h: nat, c: Commit, planned: Planned)
    requires h in p.handles
    ensures var q, m := Accepted(p, log, h, c, planned), p.handles[h];
            && q.disk == p.disk.(wal := p.disk.wal + [c], manifest := q.disk.manifest) && q.hist == p.hist + [c]
            && q.log == log && q.adopted == p.adopted && q.tainted == p.tainted
            && h in q.handles && q.handles == p.handles[h := q.handles[h]]
            && q.handles[h].store == m.store + [c] && q.handles[h].manifest == q.disk.manifest
            && q.disk.manifest.latestEpoch == c.epoch && q.disk.manifest.checkpointEpoch == m.manifest.checkpointEpoch
  {
    hide UpsertChange;
  }

  lemma AcceptedKeepsEpochs(p: Process, log: Shared, h: nat, c: Commit, planned: Planned)
    requires EpochsOk(p) && h in p.handles && c.epoch == |p.hist| + 1
    requires p.handles[h].manifest.latestEpoch == |p.hist|
    requires p.handles[h].manifest.checkpointEpoch == p.disk.manifest.checkpointEpoch
    ensures EpochsOk(Accepted(p, log, h, c, planned))
  {
    hide Numbered, HandleOk, HandlesOk, DiskOk, CheckpointsOk, Accepted;
    var m, q, ck := p.handles[h], Accepted(p, log, h, c, planned), p.disk.manifest.checkpointEpoch;
    AcceptedShape(p, log, h, c, planned);
    HandleIsOk(p.handles, ck, p.hist, p.adopted, h);
    LogGrown(p.disk, p.hist, c, q.disk.manifest);
    OneMoreNumbered(p.hist, c);
    CheckpointsStayOk(p.disk.checkpoints, p.hist, p.tainted, c);
    CallerOk(m, ck, p.hist, h in p.adopted, c, q.handles[h]);
    HandlesStayOk(p.handles, ck, p.hist, p.adopted, c, h, q.handles[h]);
  }

  lemma MakeKeepsEpochs(codec: Codec, p: Process, h: nat, call: Call)
    requires EpochsOk(p) && h in p.handles
    ensures EpochsOk(AfterCall(codec, p, h, call))
  {
    hide Numbered, HandleOk, HandlesOk, DiskOk, CheckpointsOk, AfterCall, PlanCall, Newer, Accepted, Look, AppendVia;
    CallShape(codec, p, h, call);
    var m, q := p.handles[h], AfterCall(codec, p, h, call);
    if q.hist != p.hist {
      var planned := PlanCall(m, call).value;
      HandleIsOk(p.handles, p.disk.manifest.checkpointEpoch, p.hist, p.adopted, h);
      LevelWhenFresh(p.disk, TailOf(Look(codec, p.log, h).value, h).lastEpoch, m, p.hist, h in p.adopted);
      var c := NextCommit(m, planned.changes);
      AcceptedKeepsEpochs(p, AppendVia(codec, Look(codec, p.log, h).value, h, EngineLog.ToLog(c)).value, h, c, planned);
    }
  }

  lemma HandlesStayOk(handles: map<nat, Memory>, ck: nat, hist: seq<Commit>, adopted: set<nat>, c: Commit,
                      h: nat, n: Memory)
    requires HandlesOk(handles, ck, hist, adopted) && h in handles && HandleOk(n, ck, hist + [c], h in adopted)
    ensures HandlesOk(handles[h := n], ck, hist + [c], adopted)
  {
    hide HandleOk;
    forall g | g in handles && g != h ensures HandleOk(handles[g], ck, hist + [c], g in adopted) {
      HandleStaysOk(handles[g], ck, hist, g in adopted, c);
    }
  }

  lemma SnapshotTaken(checkpoints: map<nat, Checkpoint>, hist: seq<Commit>, tainted: set<nat>, m: Memory, missing: bool)
    requires CheckpointsOk(checkpoints, hist, tainted) && StoreOk(m.store, m.manifest.latestEpoch, hist, missing)
    ensures var e := m.manifest.latestEpoch;
            CheckpointsOk(checkpoints[e := SnapshotOf(m)], hist, Flag(tainted, e, missing))
  {
    hide StoreOk;
  }

  /** The manifest may be rewritten as long as it says the same, and checkpoints added. */
  lemma DiskRewritten(d: Disk, hist: seq<Commit>, man: Manifest, torn: bool, checkpoints: map<nat, Checkpoint>)
    requires DiskOk(d, hist) && d.checkpoints.Keys <= checkpoints.Keys
    requires man.latestEpoch == d.manifest.latestEpoch && man.checkpointEpoch == d.manifest.checkpointEpoch
    ensures DiskOk(Disk(man, d.wal, torn, checkpoints), hist)
  {
  }

  lemma LogEmptied(hist: seq<Commit>, man: Manifest, checkpoints: map<nat, Checkpoint>)
    requires man.latestEpoch == man.checkpointEpoch == |hist| && |hist| in checkpoints
    ensures DiskOk(Disk(man, [], false, checkpoints), hist)
  {
    assert hist[|hist|..] == [];
  }

  lemma DiskLevel(d: Disk, hist: seq<Commit>)
    requires DiskOk(d, hist)
    ensures d.manifest.checkpointEpoch <= d.manifest.latestEpoch == |hist|
  {
  }

  lemma CheckpointKeepsDisk(d: Disk, m: Memory, hist: seq<Commit>)
    requires DiskOk(d, hist) && m.manifest.latestEpoch <= |hist|
    ensures var (e, n) := CheckpointDone(d, m);
            && DiskOk(e, hist) && e.checkpoints == d.checkpoints[m.manifest.latestEpoch := SnapshotOf(m)]
            && d.manifest.checkpointEpoch <= e.manifest.checkpointEpoch
            && n.store == m.store && n.manifest.latestEpoch == m.manifest.latestEpoch
            && n.manifest.checkpointEpoch in {m.manifest.checkpointEpoch, e.manifest.checkpointEpoch}
  {
    hide SnapshotOf, DiskOk;
    var (e, n) := CheckpointDone(d, m);
    DiskLevel(d, hist);
    if d.manifest.latestEpoch == m.manifest.latestEpoch {
      LogEmptied(hist, e.manifest, e.checkpoints);
    } else {
      DiskRewritten(d, hist, d.manifest, d.torn, e.checkpoints);
    }
  }

  lemma OneHandleChanged(handles: map<nat, Memory>, h: nat, n: Memory, ck: nat, ck2: nat, hist: seq<Commit>,
                         adopted: set<nat>, adopted2: set<nat>)
    requires HandlesOk(handles, ck, hist, adopted) && h in handles && ck <= ck2
    requires HandleOk(n, ck2, hist, h in adopted2) && adopted2 - {h} == adopted - {h}
    ensures HandlesOk(handles[h := n], ck2, hist, adopted2)
  {
    hide StoreOk;
    forall g | g in handles && g != h ensures HandleOk(handles[g], ck2, hist, g in adopted2) {
      assert HandleOk(handles[g], ck, hist, g in adopted);
      assert g in adopted2 <==> g in adopted2 - {h};
      assert g in adopted <==> g in adopted - {h};
    }
    assert forall g | g in adopted2 && g != h :: g in adopted2 - {h};
  }

  lemma CheckpointKeepsEpochs(p: Process, h: nat)
    requires EpochsOk(p)
    ensures EpochsOk(AfterCheckpoint(p, h))
  {
    hide Numbered, StoreOk, DiskOk, CheckpointsOk, CheckpointDone, Flag, Truncate;
    if h in p.handles {
      var m, q := p.handles[h], AfterCheckpoint(p, h);
      assert HandleOk(m, p.disk.manifest.checkpointEpoch, p.hist, h in p.adopted);
      EpochWithin(m.store, m.manifest.latestEpoch, p.hist, h in p.adopted);
      CheckpointKeepsDisk(p.disk, m, p.hist);
      SnapshotTaken(p.disk.checkpoints, p.hist, p.tainted, m, h in p.adopted);
      OneHandleChanged(p.handles, h, q.handles[h], p.disk.manifest.checkpointEpoch, q.disk.manifest.checkpointEpoch,
                       p.hist, p.adopted, p.adopted);
    }
  }

  lemma EpochWithin(store: seq<Commit>, epoch: nat, hist: seq<Commit>, missing: bool)
    requires StoreOk(store, epoch, hist, missing)
    ensures epoch <= |hist|
  {
  }

  /** Taking over the durable manifest: the handle goes short if it was behind. */
  lemma PublisherOk(m: Memory, man: Manifest, hist: seq<Commit>, missing: bool)
    requires HandleOk(m, man.checkpointEpoch, hist, missing) && man.latestEpoch == |hist|
    ensures HandleOk(m.(manifest := man), man.checkpointEpoch, hist, missing || m.manifest.latestEpoch < |hist|)
  {
  }

  lemma PublishKeepsEpochs(p: Process, h: nat, parent: nat, again: bool)
    requires EpochsOk(p)
    ensures EpochsOk(AfterPublish(p, h, parent, again))
  {
    hide Numbered, CheckpointsOk, HandleOk, DiskOk, HandlesOk;
    if h in p.handles && parent == p.disk.manifest.generation {
      var q, ck := AfterPublish(p, h, parent, again), p.disk.manifest.checkpointEpoch;
      DiskLevel(p.disk, p.hist);
      DiskRewritten(p.disk, p.hist, q.disk.manifest, p.disk.torn, p.disk.checkpoints);
      HandleIsOk(p.handles, ck, p.hist, p.adopted, h);
      PublisherOk(p.handles[h], q.disk.manifest, p.hist, h in p.adopted);
      OneHandleChanged(p.handles, h, q.handles[h], ck, ck, p.hist, p.adopted, q.adopted);
    }
  }

  lemma HandleIsOk(handles: map<nat, Memory>, ck: nat, hist: seq<Commit>, adopted: set<nat>, h: nat)
    requires HandlesOk(handles, ck, hist, adopted) && h in handles
    ensures HandleOk(handles[h], ck, hist, h in adopted)
  {
  }

  lemma CloneKeepsEpochs(p: Process, h: nat, copy: nat)
    requires EpochsOk(p)
    ensures EpochsOk(AfterClone(p, h, copy))
  {
    hide Numbered, CheckpointsOk, DiskOk, HandleOk;
  }

  // ---------------------------------------------------------------- the log of the process

  lemma ToLogsCommits(wal: seq<Commit>, c: Commit)
    requires c.epoch > 0
    ensures WalFrame.Committed(EngineLog.ToLog(c))
    ensures EngineLog.ToLogs(wal + [c]) == EngineLog.ToLogs(wal) + [EngineLog.ToLog(c)]
  {
  }

  lemma CloneKeepsLog(codec: Codec, p: Process, h: nat, copy: nat)
    requires LogOk(codec, p)
    ensures LogOk(codec, AfterClone(p, h, copy))
  {
    hide SharedOk, EngineLog.ToLogs;
    if h in p.handles && copy !in p.handles {
      var q := AfterClone(p, h, copy);
      ShareKeepsOk(codec, p.log, EngineLog.ToLogs(p.disk.wal), |p.hist|, h, copy);
      forall g | g in q.handles
        ensures LookOk(q.log, g, q.handles[g].manifest.latestEpoch == |q.hist| && g !in q.adopted)
      {
        var o := if g == copy then h else g;
        assert LookOk(p.log, o, p.handles[o].manifest.latestEpoch == |p.hist| && o !in p.adopted);
      }
    }
  }

  lemma PublishKeepsLog(codec: Codec, p: Process, h: nat, parent: nat, again: bool)
    requires EpochsOk(p) && LogOk(codec, p)
    ensures LogOk(codec, AfterPublish(p, h, parent, again))
  {
    hide SharedOk, EngineLog.ToLogs, Numbered, CheckpointsOk, StoreOk;
    var q := AfterPublish(p, h, parent, again);
    if h in p.handles {
      EpochWithin(p.handles[h].store, p.handles[h].manifest.latestEpoch, p.hist, h in p.adopted) by {
        assert HandleOk(p.handles[h], p.disk.manifest.checkpointEpoch, p.hist, h in p.adopted);
      }
    }
    forall g | g in q.handles
      ensures LookOk(q.log, g, q.handles[g].manifest.latestEpoch == |q.hist| && g !in q.adopted)
    {
      assert LookOk(p.log, g, p.handles[g].manifest.latestEpoch == |p.hist| && g !in p.adopted);
    }
  }

  /** What a look at the log leaves. */
  lemma LookKeepsLog(codec: Codec, p: Process, h: nat)
    requires WalFrame.Lawful(codec) && LogOk(codec, p) && h in p.handles
    ensures var t := Look(codec, p.log, h);
            t.Some? ==>
              && LogOk(codec, p.(log := t.value)) && TailOf(t.value, h).fileLen == |t.value.file|
              && t.value.misled == p.log.misled && t.value.file == p.log.file
  {
    hide SharedOk, EngineLog.ToLogs, Look, TailOf;
    LookKeepsOk(codec, p.log, EngineLog.ToLogs(p.disk.wal), |p.hist|, h);
    var t := Look(codec, p.log, h);
    if t.Some? {
      forall g | g in p.handles
        ensures LookOk(t.value, g, p.handles[g].manifest.latestEpoch == |p.hist| && g !in p.adopted)
      {
        assert LookOk(p.log, g, p.handles[g].manifest.latestEpoch == |p.hist| && g !in p.adopted);
        SharedSize(codec, p.log, t.value, EngineLog.ToLogs(p.disk.wal), |p.hist|, g);
      }
    }
  }

  lemma SharedSize(codec: Codec, s: Shared, t: Shared, written: seq<WalFrame.Commit<Changes>>, top: nat, h: nat)
    requires SharedOk(codec, s, written, top) && t.cellOf == s.cellOf && h in s.cellOf
    ensures CellOf(t, h) == CellOf(s, h)
  {
  }

  /** The handle that commits is level and current after it, every other one is behind. */
  lemma AcceptedKeepsLog(codec: Codec, p: Process, h: nat, c: Commit, planned: Planned)
    requires WalFrame.Lawful(codec) && EpochsOk(p) && LogOk(codec, p) && h in p.handles && c.epoch == |p.hist| + 1
    requires TailOf(p.log, h).fileLen == |p.log.file|
    requires AppendVia(codec, p.log, h, EngineLog.ToLog(c)).Some?
    ensures var log := AppendVia(codec, p.log, h, EngineLog.ToLog(c)).value;
            LogOk(codec, Accepted(p, log, h, c, planned))
  {
    hide SharedOk, EngineLog.ToLogs, EngineLog.ToLog, AppendVia, TailOf, Accepted, HandlesOk, Misleads, DiskOk,
         Numbered, CheckpointsOk;
    var log := AppendVia(codec, p.log, h, EngineLog.ToLog(c)).value;
    var q := Accepted(p, log, h, c, planned);
    ToLogsCommits(p.disk.wal, c);
    AcceptedShape(p, log, h, c, planned);
    LogEpoch(c);
    AppendKeepsOk(codec, p.log, EngineLog.ToLogs(p.disk.wal), |p.hist|, h, EngineLog.ToLog(c));
    SharedSize(codec, p.log, log, EngineLog.ToLogs(p.disk.wal), |p.hist|, h);
    forall g | g in q.handles
      ensures LookOk(q.log, g, q.handles[g].manifest.latestEpoch == |q.hist| && g !in q.adopted)
    {
      if g != h { BehindNow(p, g); }
    }
  }

  lemma LogEpoch(c: Commit)
    ensures EngineLog.ToLog(c).epoch == c.epoch
  {
  }

  lemma BehindNow(p: Process, g: nat)
    requires EpochsOk(p) && g in p.handles
    ensures p.handles[g].manifest.latestEpoch <= |p.hist|
  {
    hide Numbered, DiskOk, CheckpointsOk;
    assert HandleOk(p.handles[g], p.disk.manifest.checkpointEpoch, p.hist, g in p.adopted);
  }

  lemma MakeKeepsLog(codec: Codec, p: Process, h: nat, call: Call)
    requires WalFrame.Lawful(codec) && EpochsOk(p) && LogOk(codec, p) && h in p.handles
    ensures LogOk(codec, AfterCall(codec, p, h, call))
  {
    hide LogOk, Numbered, HandleOk, DiskOk, CheckpointsOk, HandlesOk, AfterCall, PlanCall, Newer, Accepted, Look,
         AppendVia, EngineLog.ToLog, TailOf;
    CallShape(codec, p, h, call);
    LookKeepsLog(codec, p, h);
    var m, q, looked := p.handles[h], AfterCall(codec, p, h, call), Look(codec, p.log, h);
    if q.hist != p.hist {
      var seen, planned := p.(log := looked.value), PlanCall(m, call).value;
      HandleIsOk(p.handles, p.disk.manifest.checkpointEpoch, p.hist, p.adopted, h);
      LevelWhenFresh(p.disk, TailOf(seen.log, h).lastEpoch, m, p.hist, h in p.adopted);
      var c := NextCommit(m, planned.changes);
      AcceptedKeepsLog(codec, seen, h, c, planned);
      assert q == Accepted(seen, AppendVia(codec, seen.log, h, EngineLog.ToLog(c)).value, h, c, planned) by {
        SameAccepted(p, looked.value, AppendVia(codec, seen.log, h, EngineLog.ToLog(c)).value, h, c, planned);
      }
    }
  }

  lemma SameAccepted(p: Process, seen: Shared, log: Shared, h: nat, c: Commit, planned: Planned)
    requires h in p.handles
    ensures Accepted(p.(log := seen), log, h, c, planned) == Accepted(p, log, h, c, planned)
  {
    hide Applied;
  }

  lemma CheckpointKeepsLog(codec: Codec, p: Process, h: nat)
    requires EpochsOk(p) && LogOk(codec, p)
    ensures LogOk(codec, AfterCheckpoint(p, h))
  {
    hide SharedOk, EngineLog.ToLogs, Numbered, CheckpointsOk, DiskOk, HandlesOk, SnapshotOf;
    var q := AfterCheckpoint(p, h);
    if h in p.handles {
      NothingToLog();
      TruncateKeepsOk(codec, p.log, EngineLog.ToLogs(p.disk.wal), |p.hist|, h);
      forall g | g in q.handles
        ensures LookOk(q.log, g, q.handles[g].manifest.latestEpoch == |q.hist| && g !in q.adopted)
      {
        assert LookOk(p.log, g, p.handles[g].manifest.latestEpoch == |p.hist| && g !in p.adopted);
      }
    }
  }

  lemma NothingToLog()
    ensures EngineLog.ToLogs([]) == []
  {
  }

  lemma CommitsAre(codec: Codec, p: Process)
    requires LogOk(codec, p)
    ensures CommitsIn(codec, p.log.file) == if p.log.misled then None else Some(p.disk.wal)
  {
    hide LooksOk, UpTo, CellOk, Wal.Scan;
    ReadsScanned(codec, p.log, EngineLog.ToLogs(p.disk.wal));
    if !p.log.misled { EntriesAre(Wal.Scan(codec, p.log.file, 0, WalFrame.NoHash).entries, p.disk.wal); }
  }

  lemma EntriesAre(entries: seq<WalFrame.WalEntry<Changes>>, wal: seq<Commit>)
    requires SameCommits(entries, EngineLog.ToLogs(wal))
    ensures seq(|entries|, i requires 0 <= i < |entries| => EngineLog.FromEntry(entries[i])) == wal
  {
    var logs := EngineLog.ToLogs(wal);
    forall i | 0 <= i < |wal| ensures EngineLog.FromEntry(entries[i]) == wal[i] {
      assert logs[i].(previousCommitHash := entries[i].commit.previousCommitHash) == entries[i].commit;
    }
  }

  lemma StopKeepsOk(codec: Codec, p: Process)
    requires ProcessOk(codec, p)
    ensures ProcessOk(codec, p.(handles := map[], log := Closed(p.log), adopted := {}))
  {
    hide Numbered, CheckpointsOk, DiskOk, HandleOk, SharedOk, EngineLog.ToLogs;
    CloseKeepsOk(codec, p.log, EngineLog.ToLogs(p.disk.wal), |p.hist|);
  }

  // ---------------------------------------------------------------- what a reopening counts

  lemma CountedIs(codec: Codec, p: Process)
    requires ProcessOk(codec, p) && !p.log.misled
    ensures Counted(codec, p).Some? && StoreOk(Counted(codec, p).value, |p.hist|, p.hist, Tainted(p))
  {
    var ck, hist := p.disk.manifest.checkpointEpoch, p.hist;
    CommitsAre(codec, p);
    hide LogOk, CommitsIn, HandlesOk;
    SinceIsSuffix(hist, |hist| - |p.disk.wal|, ck);
    hide Numbered, Since;
    StoreCompletes(BaseCheckpoint(p.disk).store, ck, hist, Tainted(p));
  }

  lemma StoreCompletes(store: seq<Commit>, epoch: nat, hist: seq<Commit>, missing: bool)
    requires StoreOk(store, epoch, hist, missing)
    ensures StoreOk(store + hist[epoch..], |hist|, hist, missing)
  {
    assert hist[..epoch] + hist[epoch..] == hist && hist[..|hist|] == hist;
  }

  lemma SinceIsShort(d: Disk, hist: seq<Commit>)
    requires Numbered(hist) && DiskOk(d, hist)
    ensures var cs := Since(d.wal, d.manifest.checkpointEpoch);
            cs == hist[d.manifest.checkpointEpoch..] && (cs != [] ==> cs[|cs| - 1].epoch == |hist|)
  {
    SinceIsSuffix(hist, |hist| - |d.wal|, d.manifest.checkpointEpoch);
  }

  lemma ReopenedLevel(d: Disk, hist: seq<Commit>)
    requires Numbered(hist) && DiskOk(d, hist) && Recover(d).Some?
    ensures var m := Recover(d).value;
            && m.manifest.latestEpoch == |hist| && m.manifest.checkpointEpoch == d.manifest.checkpointEpoch
            && DiskOk(Levelling(d, m), hist) && Levelling(d, m) == d.(torn := false)
  {
    hide ApplyAll, Upserts, AllSchemas, AllEvents, AllReceipts, WritesOf, Since, DiskOk, Numbered, BaseCheckpoint,
         Jobs.Replay;
    DiskLevel(d, hist);
    SinceIsShort(d, hist);
    DiskRewritten(d, hist, d.manifest, false, d.checkpoints);
  }

  lemma ReopenKeepsOk(codec: Codec, p: Process, h: nat)
    requires WalFrame.Lawful(codec) && ProcessOk(codec, p)
    ensures ProcessOk(codec, AfterReopen(codec, p, h))
  {
    hide Numbered, Recover, CheckpointsOk, StoreOk, Counted, DiskOk, Tainted, Levelling, SharedOk, EngineLog.ToLogs,
         Wal.OpenLog, CommitsIn;
    if p.handles == map[] && !p.log.misled {
      CountedIs(codec, p);
      CommitsAre(codec, p);
      OpenKeepsOk(codec, p.log, EngineLog.ToLogs(p.disk.wal), |p.hist|, h);
      assert p.disk.(wal := p.disk.wal) == p.disk && p.log.(file := p.log.file) == p.log;
      if Recover(p.disk).Some? {
        ReopeningCounts(codec, p, h);
        ReopenedLevel(p.disk, p.hist);
      }
    } else if p.handles == map[] {
      CommitsAre(codec, p);
    }
  }

  lemma NextKeepsOk(codec: Codec, p: Process, e: Event)
    requires WalFrame.Lawful(codec) && ProcessOk(codec, p)
    ensures ProcessOk(codec, Next(codec, p, e))
  {
    hide EpochsOk, LogOk, AfterClone, AfterCheckpoint, AfterPublish, AfterReopen, Look, PlanCall, Closed;
    match e
    case Clone(h, copy) =>
      CloneKeepsEpochs(p, h, copy);
      CloneKeepsLog(codec, p, h, copy);
    case Make(h, call) =>
      if h in p.handles {
        MakeKeepsEpochs(codec, p, h, call);
        MakeKeepsLog(codec, p, h, call);
      }
    case TakeCheckpoint(h) =>
      CheckpointKeepsEpochs(p, h);
      CheckpointKeepsLog(codec, p, h);
    case Publish(h, parent, again) =>
      PublishKeepsEpochs(p, h, parent, again);
      PublishKeepsLog(codec, p, h, parent, again);
    case Stop => StopKeepsOk(codec, p);
    case Reopen(h) => ReopenKeepsOk(codec, p, h);
  }

  lemma {:induction false} RunKeepsOk(codec: Codec, p: Process, events: seq<Event>)
    requires WalFrame.Lawful(codec) && ProcessOk(codec, p)
    ensures ProcessOk(codec, Run(codec, p, events))
    decreases |events|
  {
    hide ProcessOk, Next;
    if events != [] {
      NextKeepsOk(codec, p, events[0]);
      RunKeepsOk(codec, Next(codec, p, events[0]), events[1..]);
    }
  }

  /** In every run of any number of clones, every acknowledged commit is counted, in order, if and
      only if the checkpoint in force was not last written by a handle that had adopted a manifest
      ahead of its records, and no frame was chained wrongly since the log was last truncated. */
  lemma EveryRunCounts(codec: Codec, events: seq<Event>)
    requires WalFrame.Lawful(codec)
    ensures var p := Run(codec, NewDirectory, events);
            Counted(codec, p) == Some(p.hist) <==> !Tainted(p) && !p.log.misled
  {
    NewDirectoryIsOk(codec);
    hide ProcessOk, Run, Counted;
    RunKeepsOk(codec, NewDirectory, events);
    CountsIffWhole(codec, Run(codec, NewDirectory, events));
  }

  lemma NewDirectoryIsOk(codec: Codec)
    ensures ProcessOk(codec, NewDirectory)
  {
    hide SharedOk;
    NothingToLog();
    NewLogOk(codec, 0);
  }

  lemma CountsIffWhole(codec: Codec, p: Process)
    requires ProcessOk(codec, p)
    ensures Counted(codec, p) == Some(p.hist) <==> !Tainted(p) && !p.log.misled
  {
    hide Numbered, DiskOk, CheckpointsOk, HandlesOk, LogOk, CommitsIn, Since;
    CommitsAre(codec, p);
    if !p.log.misled { CountedIs(codec, p); }
    hide Counted;
    assert p.hist[..|p.hist|] == p.hist;
  }

  /** Exactly when a checkpoint leaves every acknowledged commit counted. Through a handle at the
      durable epoch, which truncates the log: if the handle never adopted. Through one at the
      epoch of the checkpoint in force, whose file it rewrites even as it is refused: if, besides,
      the log can be scanned. Through any other: if all were counted before. */
  lemma CheckpointKeepsAll(codec: Codec, events: seq<Event>, h: nat)
    requires WalFrame.Lawful(codec) && h in Run(codec, NewDirectory, events).handles
    ensures var p := Run(codec, NewDirectory, events); var q := Next(codec, p, TakeCheckpoint(h));
            var epoch := p.handles[h].manifest.latestEpoch; var sound := epoch == 0 || h !in p.adopted;
            Counted(codec, q) == Some(q.hist) <==>
              if epoch == |p.hist| then sound
              else if epoch == p.disk.manifest.checkpointEpoch then sound && !p.log.misled
              else Counted(codec, p) == Some(p.hist)
  {
    hide Run, Counted, ProcessOk, Truncate;
    NewDirectoryIsOk(codec);
    RunKeepsOk(codec, NewDirectory, events);
    var p := Run(codec, NewDirectory, events);
    NextKeepsOk(codec, p, TakeCheckpoint(h));
    CountsIffWhole(codec, p);
    CountsIffWhole(codec, Next(codec, p, TakeCheckpoint(h)));
    DurableLevel(codec, p);
    Healed(p.log, h);
  }

  lemma Healed(log: Shared, h: nat)
    ensures !Truncate(log, h).misled
  {
  }

  lemma DurableLevel(codec: Codec, p: Process)
    requires ProcessOk(codec, p)
    ensures p.disk.manifest.latestEpoch == |p.hist|
  {
    hide LogOk;
  }

  /** Exactly when an acknowledged call makes the log unreadable: its handle has cached the length of
      the file and another checksum than that of the last frame. That takes a handle that adopted,
      and whose cell last looked before the log was truncated. */
  lemma CallMisleads(codec: Codec, events: seq<Event>, h: nat, call: Call)
    requires WalFrame.Lawful(codec) && h in Run(codec, NewDirectory, events).handles
    requires |Next(codec, Run(codec, NewDirectory, events), Make(h, call)).hist| >
             |Run(codec, NewDirectory, events).hist|
    ensures var p := Run(codec, NewDirectory, events); var q := Next(codec, p, Make(h, call));
            && (CommitsIn(codec, q.log.file).None? <==>
                  CommitsIn(codec, p.log.file).None? || Misleads(codec, p.log, h))
            && (Misleads(codec, p.log, h) ==> h in p.adopted && CellOf(p.log, h) !in p.log.current)
  {
    hide Run, ProcessOk, AfterCall, Misleads, CommitsIn;
    NewDirectoryIsOk(codec);
    RunKeepsOk(codec, NewDirectory, events);
    var p := Run(codec, NewDirectory, events);
    NextKeepsOk(codec, p, Make(h, call));
    ReadableIff(codec, p);
    ReadableIff(codec, Next(codec, p, Make(h, call)));
    CommitMisleads(codec, p, h, call);
  }

  lemma ReadableIff(codec: Codec, p: Process)
    requires ProcessOk(codec, p)
    ensures CommitsIn(codec, p.log.file).None? <==> p.log.misled
  {
    hide EpochsOk, LogOk;
    CommitsAre(codec, p);
  }

  /** A handle that commits is at the durable epoch. */
  lemma CommitterIsLevel(codec: Codec, p: Process, h: nat, call: Call)
    requires ProcessOk(codec, p) && h in p.handles && AfterCall(codec, p, h, call).hist != p.hist
    ensures p.handles[h].manifest.latestEpoch == |p.hist|
  {
    hide LogOk, Numbered, HandleOk, DiskOk, CheckpointsOk, HandlesOk, AfterCall, PlanCall, Newer, Accepted, Look,
         AppendVia, EngineLog.ToLog, TailOf;
    CallShape(codec, p, h, call);
    HandleIsOk(p.handles, p.disk.manifest.checkpointEpoch, p.hist, p.adopted, h);
    LevelWhenFresh(p.disk, TailOf(Look(codec, p.log, h).value, h).lastEpoch, p.handles[h], p.hist, h in p.adopted);
  }

  lemma CommitMisleads(codec: Codec, p: Process, h: nat, call: Call)
    requires WalFrame.Lawful(codec) && ProcessOk(codec, p) && h in p.handles
    requires AfterCall(codec, p, h, call).hist != p.hist
    ensures AfterCall(codec, p, h, call).log.misled == (p.log.misled || Misleads(codec, p.log, h))
    ensures Misleads(codec, p.log, h) ==> h in p.adopted && CellOf(p.log, h) !in p.log.current
  {
    hide SharedOk, EpochsOk, AfterCall, PlanCall, Newer, Accepted, Look, AppendVia, EngineLog.ToLog, EngineLog.ToLogs,
         TailOf, CellOf, Misleads;
    CallShape(codec, p, h, call);
    CommitterIsLevel(codec, p, h, call);
    var written, m := EngineLog.ToLogs(p.disk.wal), p.handles[h];
    var c := NextCommit(m, PlanCall(m, call).value.changes);
    LookThenAppend(codec, p.log, written, |p.hist|, h, EngineLog.ToLog(c));
    AcceptedShape(p, AppendVia(codec, Look(codec, p.log, h).value, h, EngineLog.ToLog(c)).value, h, c,
                  PlanCall(m, call).value);
    if Misleads(codec, p.log, h) {
      CurrentCellsAreRight(codec, p.log, written, |p.hist|, h);
      assert LookOk(p.log, h, m.manifest.latestEpoch == |p.hist| && h !in p.adopted);
    }
  }

  /** A look that rescans leaves nothing to mislead. */
  lemma LookThenAppend(codec: Codec, s: Shared, written: seq<WalFrame.Commit<Changes>>, top: nat, h: nat,
                       c: WalFrame.Commit<Changes>)
    requires WalFrame.Lawful(codec) && SharedOk(codec, s, written, top) && h in s.cellOf && Look(codec, s, h).Some?
    requires AppendVia(codec, Look(codec, s, h).value, h, c).Some?
    ensures AppendVia(codec, Look(codec, s, h).value, h, c).value.misled == (s.misled || Misleads(codec, s, h))
  {
    hide Wal.Scan, UpTo, ReadsAs, CellOk;
    LookKeepsOk(codec, s, written, top, h);
    ReadsScanned(codec, s, written);
  }

  /** As long as no publication goes through a handle that is behind, nothing is ever adopted, no
      cell misleads, and every checkpoint keeps everything. */
  predicate NeverBehind(codec: Codec, p: Process, events: seq<Event>)
    decreases |events|
  {
    events == [] ||
    (&& (events[0].Publish? && events[0].h in p.handles ==>
           p.handles[events[0].h].manifest.latestEpoch == p.disk.manifest.latestEpoch)
     && NeverBehind(codec, Next(codec, p, events[0]), events[1..]))
  }

  lemma StaysClean(codec: Codec, p: Process, e: Event)
    requires WalFrame.Lawful(codec) && ProcessOk(codec, p)
    requires p.adopted == {} && p.tainted == {} && !p.log.misled && NeverBehind(codec, p, [e])
    ensures var q := Next(codec, p, e); q.adopted == {} && q.tainted == {} && !q.log.misled
  {
    hide CheckpointDone, Recover, Levelling, ProcessOk, AfterCall, Wal.OpenLog, CommitsIn;
    if e.Make? && e.h in p.handles {
      CallShape(codec, p, e.h, e.call);
      if AfterCall(codec, p, e.h, e.call).hist != p.hist { CommitMisleads(codec, p, e.h, e.call); }
      CallKeepsFlags(codec, p, e.h, e.call);
    } else if e.Make? {
      assert AfterCall(codec, p, e.h, e.call) == p by { NoSuchHandle(codec, p, e.h, e.call); }
    }
  }

  lemma NoSuchHandle(codec: Codec, p: Process, h: nat, call: Call)
    requires h !in p.handles
    ensures AfterCall(codec, p, h, call) == p
  {
  }

  lemma CallKeepsFlags(codec: Codec, p: Process, h: nat, call: Call)
    requires WalFrame.Lawful(codec) && ProcessOk(codec, p) && h in p.handles
    ensures var q := AfterCall(codec, p, h, call);
            && q.adopted == p.adopted && q.tainted == p.tainted
            && (q.hist == p.hist ==> q.log.misled == p.log.misled)
  {
    hide PlanCall, Applied, Look, AppendVia, Newer, EngineLog.ToLog, EpochsOk, LogOk;
    LookKeepsLog(codec, p, h);
  }

  lemma {:induction false} NothingAdopted(codec: Codec, p: Process, events: seq<Event>)
    requires WalFrame.Lawful(codec) && ProcessOk(codec, p)
    requires p.adopted == {} && p.tainted == {} && !p.log.misled && NeverBehind(codec, p, events)
    ensures var q := Run(codec, p, events); q.tainted == {} && !q.log.misled
    decreases |events|
  {
    hide ProcessOk, Next;
    if events != [] {
      assert NeverBehind(codec, p, [events[0]]);
      StaysClean(codec, p, events[0]);
      NextKeepsOk(codec, p, events[0]);
      NothingAdopted(codec, Next(codec, p, events[0]), events[1..]);
    }
  }

  lemma CurrentPublishersLoseNothing(codec: Codec, events: seq<Event>)
    requires WalFrame.Lawful(codec) && NeverBehind(codec, NewDirectory, events)
    ensures Counted(codec, Run(codec, NewDirectory, events)) == Some(Run(codec, NewDirectory, events).hist)
  {
    NewDirectoryIsOk(codec);
    hide Run, NeverBehind, Counted, ProcessOk;
    EveryRunCounts(codec, events);
    NothingAdopted(codec, NewDirectory, events);
  }

  // ---------------------------------------------------------------- runs that lose commits

  /** The commit that notes a receipt. */
  function Noting(epoch: nat, receipt: IdempotencyReceipt): Commit
  {
    Commit(epoch, Changes([], [receipt], [], NoWrites))
  }

  /** It can be appended through this tail. */
  predicate Fitting(codec: Codec, epoch: nat, receipt: IdempotencyReceipt, t: Wal.WalTail)
  {
    WalFrame.Fits(codec, EngineLog.ToLog(Noting(epoch, receipt)), t.lastChecksum) && Wal.NextLsn(t) < WalFrame.LSN_LIMIT
  }

  function FrameThrough(codec: Codec, epoch: nat, receipt: IdempotencyReceipt, t: Wal.WalTail): seq<Byte>
  {
    WalFrame.FrameOf(codec, EngineLog.ToLog(Noting(epoch, receipt)), Wal.NextLsn(t), t.lastChecksum)
  }

  function ChecksumThrough(codec: Codec, epoch: nat, receipt: IdempotencyReceipt, t: Wal.WalTail): WalFrame.Hash
  {
    codec.checksum(WalFrame.Payload(codec, EngineLog.ToLog(Noting(epoch, receipt)), t.lastChecksum))
  }

  /** A handle whose manifest is the durable one and whose tail has the length of the file notes a
      receipt. */
  lemma Notes(codec: Codec, p: Process, h: nat, receipt: IdempotencyReceipt)
    requires h in p.handles && p.handles[h].manifest == p.disk.manifest && CellOf(p.log, h) < |p.log.cells|
    requires TailOf(p.log, h).fileLen == |p.log.file|
    requires TailOf(p.log, h).lastEpoch.Some? ==> TailOf(p.log, h).lastEpoch.value <= p.disk.manifest.latestEpoch
    requires Fitting(codec, p.disk.manifest.latestEpoch + 1, receipt, TailOf(p.log, h))
    ensures var q, man, t := Next(codec, p, Make(h, RecordReceipt(receipt))), p.disk.manifest, TailOf(p.log, h);
            var e, f := man.latestEpoch + 1, FrameThrough(codec, man.latestEpoch + 1, receipt, t);
            && q.hist == p.hist + [Noting(e, receipt)] && q.adopted == p.adopted && q.tainted == p.tainted
            && q.disk == p.disk.(wal := p.disk.wal + [Noting(e, receipt)],
                                 manifest := man.(latestEpoch := e, generation := man.generation + 1))
            && h in q.handles && q.handles == p.handles[h := q.handles[h]] && q.handles[h].manifest == q.disk.manifest
            && q.log.file == p.log.file + f && q.log.cellOf == p.log.cellOf
            && q.log.cells == p.log.cells[CellOf(p.log, h) :=
                 Wal.WalTail(Some(Wal.NextLsn(t)), Some(e), ChecksumThrough(codec, e, receipt, t),
                             |p.log.file| + |f|)]
  {
    hide WalFrame.FrameOf, WalFrame.Payload, WalFrame.Fits, Wal.Scan, Misleads;
    var m := p.handles[h];
    assert Look(codec, p.log, h) == Some(p.log) by {
      assert p.log.cells[CellOf(p.log, h) := TailOf(p.log, h)] == p.log.cells;
    }
  }

  lemma NothingIn(codec: Codec)
    ensures CommitsIn(codec, []) == Some([]) && Wal.OpenLog(codec, []) == Wal.Opened([], NoTail, None)
  {
    Wal.EmptyScan(codec, 0, WalFrame.NoHash);
    assert |CommitsIn(codec, []).value| == 0;
  }

  const OneCell := Shared([], [NoTail], map[0 := 0, 1 := 0], {0}, false)

  function TwoFresh(): map<nat, Memory>
  {
    map[0 := EngineChanges.FirstMemory, 1 := EngineChanges.FirstMemory]
  }

  /** Open and clone: two handles, one cell. */
  lemma OpenedAndCloned(codec: Codec)
    ensures Next(codec, Next(codec, NewDirectory, Reopen(0)), Clone(0, 1)) ==
            Process(Start().disk, OneCell, TwoFresh(), [], {}, {})
  {
    EngineChanges.RecoverFresh();
    NothingIn(codec);
    hide Recover, CommitsIn, Wal.OpenLog;
    assert Start().disk.(wal := []) == Start().disk;
    assert Levelling(Start().disk, EngineChanges.FirstMemory) == Start().disk;
  }

  lemma RunOne(codec: Codec, p: Process, e: Event, rest: seq<Event>)
    ensures Run(codec, p, [e] + rest) == Run(codec, Next(codec, p, e), rest)
  {
    hide Next;
    assert ([e] + rest)[1..] == rest;
  }

  lemma RunNone(codec: Codec, p: Process)
    ensures Run(codec, p, []) == p
  {
    hide Next;
  }

  lemma RunTwo(codec: Codec, p: Process, a: Event, b: Event)
    ensures Run(codec, p, [a, b]) == Next(codec, Next(codec, p, a), b)
  {
    hide Next, Run;
    assert [a, b] == [a] + ([b] + []);
    RunOne(codec, p, a, [b] + []);
    RunOne(codec, Next(codec, p, a), b, []);
    RunNone(codec, Next(codec, Next(codec, p, a), b));
  }

  lemma {:induction false} RunSplit(codec: Codec, p: Process, a: seq<Event>, b: seq<Event>)
    ensures Run(codec, p, a + b) == Run(codec, Run(codec, p, a), b)
    decreases |a|
  {
    hide Next;
    if a == [] {
      assert a + b == b;
    } else {
      assert (a + b)[1..] == a[1..] + b;
      RunSplit(codec, Next(codec, p, a[0]), a[1..], b);
    }
  }

  /** Open, clone, commit through the first handle, publish through the clone with the parent
      generation that is now current, and checkpoint through the clone. */
  function LosingRun(receipt: IdempotencyReceipt): seq<Event>
  {
    [Reopen(0), Clone(0, 1)] + [Make(0, RecordReceipt(receipt)), Publish(1, 2, false)] + [TakeCheckpoint(1), Stop]
  }

  lemma CheckpointedShort(codec: Codec, q: Process)
    requires |q.hist| == 1 && q.disk.manifest.latestEpoch == 1 && q.adopted == {1} && q.tainted == {}
    requires 1 in q.handles && q.handles[1].store == [] && q.handles[1].manifest.latestEpoch == 1
    ensures var t := Next(codec, Next(codec, q, TakeCheckpoint(1)), Stop);
            |t.hist| == 1 && Counted(codec, t) == Some([])
  {
    NothingIn(codec);
    hide CommitsIn;
    var t := Next(codec, q, TakeCheckpoint(1));
    var none: seq<Commit> := [];
    assert t.log.file == [] && BaseCheckpoint(t.disk).store == [];
    assert BaseCheckpoint(t.disk).store + Since(none, t.disk.manifest.checkpointEpoch) == [];
    assert Counted(codec, t) == Some([]);
  }

  /** A commit is acknowledged, and no reopening counts it. */
  lemma AdoptedCheckpointLosesCommit(codec: Codec, receipt: IdempotencyReceipt)
    requires Fitting(codec, 1, receipt, NoTail)
    ensures var p := Run(codec, NewDirectory, LosingRun(receipt));
            |p.hist| == 1 && Counted(codec, p) == Some([])
  {
    hide Run, Next, Counted, Fitting, FrameThrough, ChecksumThrough;
    var a, b := [Reopen(0), Clone(0, 1)], [Make(0, RecordReceipt(receipt)), Publish(1, 2, false)];
    RunSplit(codec, NewDirectory, a, b);
    RunSplit(codec, NewDirectory, a + b, [TakeCheckpoint(1), Stop]);
    RunTwo(codec, NewDirectory, Reopen(0), Clone(0, 1));
    OpenedAndCloned(codec);
    var p := Run(codec, NewDirectory, a);
    RunTwo(codec, p, Make(0, RecordReceipt(receipt)), Publish(1, 2, false));
    Notes(codec, p, 0, receipt);
    var q := Next(codec, p, Make(0, RecordReceipt(receipt)));
    assert q.handles[1] == EngineChanges.FirstMemory;
    PublishedBehind(codec, q, 1, 2);
    q := Next(codec, q, Publish(1, 2, false));
    RunTwo(codec, q, TakeCheckpoint(1), Stop);
    CheckpointedShort(codec, q);
  }

  lemma PublishedBehind(codec: Codec, p: Process, h: nat, parent: nat)
    requires h in p.handles && parent == p.disk.manifest.generation
    requires p.handles[h].manifest.latestEpoch < p.disk.manifest.latestEpoch
    ensures var q, man := Next(codec, p, Publish(h, parent, false)), p.disk.manifest.(generation := parent + 1);
            q == p.(disk := p.disk.(manifest := man), handles := p.handles[h := p.handles[h].(manifest := man)],
                    adopted := p.adopted + {h})
  {
  }

  /** Open and clone; the first handle notes `a`, checkpoints, and notes `b`; the clone publishes and
      notes `c`. */
  function MisleadingRun(a: IdempotencyReceipt, b: IdempotencyReceipt, c: IdempotencyReceipt): seq<Event>
  {
    [Reopen(0), Clone(0, 1)] + [Make(0, RecordReceipt(a)), TakeCheckpoint(0)]
    + [Make(0, RecordReceipt(b)), Publish(1, 4, false)] + [Make(1, RecordReceipt(c)), Stop]
  }

  /** The clone's tail after the first of them. */
  function StaleTail(codec: Codec, a: IdempotencyReceipt): Wal.WalTail
  {
    Wal.WalTail(Some(1), Some(1), ChecksumThrough(codec, 1, a, NoTail), |FrameThrough(codec, 1, a, NoTail)|)
  }

  /** The frames fit, and the first two have one length and different checksums. */
  predicate Mistakable(codec: Codec, a: IdempotencyReceipt, b: IdempotencyReceipt, c: IdempotencyReceipt)
  {
    && Fitting(codec, 1, a, NoTail) && Fitting(codec, 2, b, NoTail) && Fitting(codec, 3, c, StaleTail(codec, a))
    && |FrameThrough(codec, 1, a, NoTail)| == |FrameThrough(codec, 2, b, NoTail)|
    && ChecksumThrough(codec, 1, a, NoTail) != ChecksumThrough(codec, 2, b, NoTail)
  }

  lemma CheckpointLevel(codec: Codec, p: Process, h: nat)
    requires h in p.handles && p.handles[h].manifest == p.disk.manifest && h !in p.adopted && p.tainted == {}
    ensures var q, man := Next(codec, p, TakeCheckpoint(h)), p.disk.manifest;
            && q.log == Truncate(p.log, h) && q.hist == p.hist && q.adopted == p.adopted && q.tainted == {}
            && q.disk.manifest == man.(checkpointEpoch := man.latestEpoch, generation := man.generation + 1)
            && h in q.handles && q.handles == p.handles[h := q.handles[h]] && q.handles[h].manifest == q.disk.manifest
  {
    hide SnapshotOf;
  }

  /** The state before the clone's last call: its tail is that of `a`, the file holds `b`. */
  lemma BeforeMisled(codec: Codec, a: IdempotencyReceipt, b: IdempotencyReceipt)
    requires Fitting(codec, 1, a, NoTail) && Fitting(codec, 2, b, NoTail)
    ensures var p := Run(codec, NewDirectory,
                         [Reopen(0), Clone(0, 1)] + [Make(0, RecordReceipt(a)), TakeCheckpoint(0)]
                         + [Make(0, RecordReceipt(b)), Publish(1, 4, false)]);
            && |p.hist| == 2 && p.tainted == {} && p.disk.manifest.latestEpoch == 2
            && 1 in p.handles && p.handles[1].manifest == p.disk.manifest
            && p.log.file == FrameThrough(codec, 2, b, NoTail)
            && CellOf(p.log, 1) == 0 < |p.log.cells| && TailOf(p.log, 1) == StaleTail(codec, a)
  {
    hide Run, Next, Fitting, FrameThrough, ChecksumThrough;
    var x, y := [Reopen(0), Clone(0, 1)], [Make(0, RecordReceipt(a)), TakeCheckpoint(0)];
    var z := [Make(0, RecordReceipt(b)), Publish(1, 4, false)];
    RunSplit(codec, NewDirectory, x, y);
    RunSplit(codec, NewDirectory, x + y, z);
    RunTwo(codec, NewDirectory, Reopen(0), Clone(0, 1));
    OpenedAndCloned(codec);
    var p := Run(codec, NewDirectory, x);
    RunTwo(codec, p, Make(0, RecordReceipt(a)), TakeCheckpoint(0));
    Notes(codec, p, 0, a);
    p := Next(codec, p, Make(0, RecordReceipt(a)));
    assert p.handles[1] == EngineChanges.FirstMemory && p.log.cells == [StaleTail(codec, a)];
    CheckpointLevel(codec, p, 0);
    p := Next(codec, p, TakeCheckpoint(0));
    assert p.log.cells == [StaleTail(codec, a), NoTail] && p.log.cellOf == map[0 := 1, 1 := 0];
    RunTwo(codec, p, Make(0, RecordReceipt(b)), Publish(1, 4, false));
    Notes(codec, p, 0, b);
    p := Next(codec, p, Make(0, RecordReceipt(b)));
    assert p.handles[1] == EngineChanges.FirstMemory && p.log.cells[0] == StaleTail(codec, a);
    PublishedBehind(codec, p, 1, 4);
  }

  /** Three commits are acknowledged, and the database cannot be opened again, whatever is tried. */
  lemma MisledAppendEndsLog(codec: Codec, a: IdempotencyReceipt, b: IdempotencyReceipt, c: IdempotencyReceipt,
                            later: seq<Event>)
    requires WalFrame.Lawful(codec) && Mistakable(codec, a, b, c)
    ensures var p := Run(codec, NewDirectory, MisleadingRun(a, b, c));
            && |p.hist| == 3 && !Tainted(p) && Counted(codec, p) == None
            && Run(codec, p, later).handles == map[]
  {
    hide Run, Next, Fitting, FrameThrough, ChecksumThrough, CommitsIn, Misleads;
    var front := [Reopen(0), Clone(0, 1)] + [Make(0, RecordReceipt(a)), TakeCheckpoint(0)]
                 + [Make(0, RecordReceipt(b)), Publish(1, 4, false)];
    RunSplit(codec, NewDirectory, front, [Make(1, RecordReceipt(c)), Stop]);
    BeforeMisled(codec, a, b);
    var p := Run(codec, NewDirectory, front);
    RunTwo(codec, p, Make(1, RecordReceipt(c)), Stop);
    Notes(codec, p, 1, c);
    OneFrameMisleads(codec, p.log, 1, b);
    CallMisleads(codec, front, 1, RecordReceipt(c));
    var q := Next(codec, p, Make(1, RecordReceipt(c)));
    StopKeepsFile(codec, q);
    ClosedForGood(codec, Next(codec, q, Stop), later);
  }

  lemma OneFrameMisleads(codec: Codec, log: Shared, h: nat, b: IdempotencyReceipt)
    requires WalFrame.Lawful(codec) && Fitting(codec, 2, b, NoTail) && log.file == FrameThrough(codec, 2, b, NoTail)
    requires TailOf(log, h).fileLen == |log.file| && TailOf(log, h).lastChecksum != ChecksumThrough(codec, 2, b, NoTail)
    ensures Misleads(codec, log, h)
  {
    hide WalFrame.FrameOf, WalFrame.Payload, WalFrame.Fits, Wal.Scan;
    var x := EngineLog.ToLog(Noting(2, b));
    Wal.EmptyScan(codec, 0, WalFrame.NoHash);
    Wal.FrameAppended(codec, [], x, 1, WalFrame.NoHash);
    assert [] + log.file == log.file;
    var e := WalFrame.EntryOf(codec, x, 1, WalFrame.NoHash);
    assert [] + [e] == [e];
  }

  lemma StopKeepsFile(codec: Codec, p: Process)
    ensures var q := Next(codec, p, Stop);
            && q.log.file == p.log.file && q.handles == map[] && q.hist == p.hist && q.disk == p.disk
            && q.tainted == p.tainted
  {
  }

  /** Without a handle and without a log that can be scanned, nothing ever happens again. */
  lemma {:induction false} ClosedForGood(codec: Codec, p: Process, later: seq<Event>)
    requires p.handles == map[] && CommitsIn(codec, p.log.file).None?
    ensures Run(codec, p, later).handles == map[]
    decreases |later|
  {
    if later != [] {
      var q := Next(codec, p, later[0]);
      assert q.handles == map[] && q.log.file == p.log.file by {
        hide PlanCall, CommitsIn, Wal.OpenLog, Recover, CheckpointDone;
      }
      hide Next;
      ClosedForGood(codec, q, later[1..]);
    }
  }
}
