/** Segment and index files against the manifest that names them
    (crates/tracedb-query/src/lib.rs): publish, compact and vacuum, one file operation at a
    time, by any number of handles, with a crash between any two. */
module Artifacts {
  import opened Ordering
  import opened Decimal
  import opened Texts

  /** The records a segment seals; only what decides its indexes is looked at. */
  datatype Snapshot = Snapshot(rows: seq<string>, hasText: bool, hasVectors: bool)

  datatype SegmentObject = SegmentObject(segmentId: string, generation: nat, records: Snapshot)

  datatype Kind = Primary | Policy | Text | Vector

  datatype Content = SegmentFile(sealed: SegmentObject) | IndexFile(kind: Kind, parent: nat, source: SegmentObject)

  type Dir = map<string, Content>

  datatype SegmentManifest = SegmentManifest(segmentId: string, generation: nat)

  /** `source` stands for the checksum of the segment the index was built from. */
  datatype IndexManifest = IndexManifest(indexId: string, segmentId: string, generation: nat, kind: Kind, parent: nat,
                                         source: SegmentObject)

  datatype Manifest = Manifest(generation: nat, segments: seq<SegmentManifest>, indexes: seq<IndexManifest>)

  datatype Disk = Disk(manifest: Manifest, segments: Dir, indexes: Dir)

  // ---------------------------------------------------------------- names

  function KindName(k: Kind): (s: string)
    ensures ':' !in s
  {
    match k
    case Primary => "primary"
    case Policy => "policy"
    case Text => "text"
    case Vector => "vector"
  }

  function IndexId(segmentId: string, kind: Kind, generation: nat): string
  {
    segmentId + [':'] + KindName(kind) + [':'] + Dec(generation)
  }

  function SegmentName(segmentId: string): string { segmentId + ".tseg" }

  function IndexName(indexId: string): string { indexId + ".tidx" }

  function TempName(name: string): string { name + ".tmp" }

  predicate HasExtension(name: string, ext: string)
  {
    |name| > |ext| + 1 && name[|name| - |ext| - 1..] == "." + ext
  }

  predicate IsArtifact(name: string) { HasExtension(name, "tseg") || HasExtension(name, "tidx") }

  predicate IsStaged(name: string) { HasExtension(name, "tmp") }

  lemma KindNameInjective(a: Kind, b: Kind)
    requires KindName(a) == KindName(b)
    ensures a == b
  {
    assert KindName(a)[1] == KindName(b)[1];
  }

  lemma IndexIdInjective(a: string, k: Kind, m: nat, b: string, l: Kind, n: nat)
    requires IndexId(a, k, m) == IndexId(b, l, n)
    ensures a == b && k == l && m == n
  {
    hide KindName, Dec;
    NumberedNameInjective(a + [':'] + KindName(k), m, b + [':'] + KindName(l), n, ':');
    var s, t := a + [':'] + KindName(k), b + [':'] + KindName(l);
    SeparatorPlace(a, KindName(k), b, KindName(l), ':');
    SeparatorPlace(b, KindName(l), a, KindName(k), ':');
    assert a == s[..|a|] && b == t[..|b|];
    assert KindName(k) == s[|a| + 1..] && KindName(l) == t[|b| + 1..];
    KindNameInjective(k, l);
  }

  lemma ExtensionOf(stem: string, ext: string)
    requires stem != "" && ext != ""
    ensures HasExtension(stem + ("." + ext), ext)
  {
    var name := stem + ("." + ext);
    assert name[|stem|..] == "." + ext;
  }

  lemma LastOf(name: string, ext: string)
    requires ext != "" && HasExtension(name, ext)
    ensures name[|name| - 1] == ext[|ext| - 1]
  {
    assert name[|name| - |ext| - 1..][|ext|] == ("." + ext)[|ext|];
  }

  lemma SegmentNameIs(id: string)
    requires id != ""
    ensures IsArtifact(SegmentName(id)) && !IsStaged(SegmentName(id)) && IsStaged(TempName(SegmentName(id)))
  {
    hide HasExtension;
    assert ".tseg" == "." + "tseg" && ".tmp" == "." + "tmp";
    ExtensionOf(id, "tseg");
    ExtensionOf(SegmentName(id), "tmp");
    if IsStaged(SegmentName(id)) { LastOf(SegmentName(id), "tmp"); }
  }

  lemma IndexNameIs(id: string)
    requires id != ""
    ensures IsArtifact(IndexName(id)) && !IsStaged(IndexName(id)) && IsStaged(TempName(IndexName(id)))
  {
    hide HasExtension;
    assert ".tidx" == "." + "tidx" && ".tmp" == "." + "tmp";
    ExtensionOf(id, "tidx");
    ExtensionOf(IndexName(id), "tmp");
    if IsStaged(IndexName(id)) { LastOf(IndexName(id), "tmp"); }
  }

  lemma NamesInjective(a: string, b: string)
    ensures SegmentName(a) == SegmentName(b) ==> a == b
    ensures IndexName(a) == IndexName(b) ==> a == b
  {
    var m, n, x, y := SegmentName(a), SegmentName(b), IndexName(a), IndexName(b);
    assert m[..|m| - 5] == a && n[..|n| - 5] == b && x[..|x| - 5] == a && y[..|y| - 5] == b;
  }

  // ---------------------------------------------------------------- what a publication adds

  function Kinds(records: Snapshot): seq<Kind>
  {
    [Primary, Policy] + (if records.hasText then [Text] else []) + (if records.hasVectors then [Vector] else [])
  }

  function EntryFor(o: SegmentObject, kind: Kind, parent: nat): IndexManifest
  {
    IndexManifest(IndexId(o.segmentId, kind, o.generation), o.segmentId, o.generation, kind, parent, o)
  }

  function EntriesFor(o: SegmentObject, parent: nat): (entries: seq<IndexManifest>)
    ensures |entries| == |Kinds(o.records)|
    ensures forall i | 0 <= i < |entries| :: entries[i] == EntryFor(o, Kinds(o.records)[i], parent)
  {
    seq(|Kinds(o.records)|, i requires 0 <= i < |Kinds(o.records)| => EntryFor(o, Kinds(o.records)[i], parent))
  }

  function SegmentIds(m: Manifest): set<string>
  {
    set i | 0 <= i < |m.segments| :: m.segments[i].segmentId
  }

  function Retain(indexes: seq<IndexManifest>, gone: set<string>): (kept: seq<IndexManifest>)
    ensures forall x | x in kept :: x in indexes && x.segmentId !in gone
  {
    if indexes == [] then []
    else (if indexes[0].segmentId in gone then [] else [indexes[0]]) + Retain(indexes[1..], gone)
  }

  datatype Job = Job(compact: bool, segmentId: string, parent: nat, records: Snapshot, generation: nat)

  /** The manifest after a publication; compaction drops the segments it replaces. */
  function Published(m: Manifest, job: Job, o: SegmentObject): Manifest
  {
    Manifest(m.generation + 1,
             (if job.compact then [] else m.segments) + [SegmentManifest(o.segmentId, o.generation)],
             (if job.compact then Retain(m.indexes, SegmentIds(m)) else m.indexes) + EntriesFor(o, job.parent))
  }

  // ---------------------------------------------------------------- vacuum of one directory

  function SegmentRefs(m: Manifest): set<string>
  {
    set i | 0 <= i < |m.segments| :: SegmentName(m.segments[i].segmentId)
  }

  function IndexRefs(m: Manifest): set<string>
  {
    set i | 0 <= i < |m.indexes| :: IndexName(m.indexes[i].indexId)
  }

  predicate IsDoomed(name: string, referenced: set<string>)
  {
    IsStaged(name) || (IsArtifact(name) && name !in referenced)
  }

  function Doomed(dir: Dir, referenced: set<string>): set<string>
  {
    set name | name in dir && IsDoomed(name, referenced)
  }

  method VacuumArtifactDir(dir: Dir, referenced: set<string>) returns (left: Dir, removed: nat)
    ensures left == dir - Doomed(dir, referenced) && removed == |Doomed(dir, referenced)|
  {
    hide IsStaged, IsArtifact;
    left, removed := dir, 0;
    var names := dir.Keys;
    ghost var gone: set<string> := {};
    while names != {}
      invariant names <= dir.Keys
      invariant gone == (set n | n in dir && n !in names && IsDoomed(n, referenced))
      invariant left == dir - gone && removed == |gone|
    {
      var name :| name in names;
      if IsStaged(name) || (IsArtifact(name) && name !in referenced) {
        left, removed := left - {name}, removed + 1;
        gone := gone + {name};
      }
      names := names - {name};
    }
    assert gone == Doomed(dir, referenced);
  }

  // ---------------------------------------------------------------- steps

  /** What the holder of the write lock is doing. */
  datatype Pc =
    | Idle
    | Begun(owner: nat, job: Job)
    | SegmentStaged(owner: nat, job: Job)
    | Building(owner: nat, job: Job, sealed: SegmentObject, done: nat)
    | IndexStaged(owner: nat, job: Job, sealed: SegmentObject, done: nat)
    | Vacuuming(owner: nat, segmentsLeft: set<string>, indexesLeft: set<string>)

  /** Each open handle has its own copy of the manifest. */
  datatype State = State(disk: Disk, handles: map<nat, Manifest>, pc: Pc)

  datatype Action =
    | Open(h: nat)
    | Bump(h: nat)  // a commit or a checkpoint rewrites the manifest
    | Publish(h: nat, segmentId: string, parent: nat, records: Snapshot)
    | Compact(h: nat, epoch: nat, records: Snapshot)
    | StageSegment | RenameSegment | StageIndex | RenameIndex | RenameManifest
    | Vacuum(h: nat)
    | RemoveSegment(name: string) | RemoveIndex(name: string) | FinishVacuum
    | Crash(h: nat)

  /** The memory a handle goes on with. It takes over whatever durable manifest is newer, where
      the engine's handle would meet its own lock (`Engine.Refreshed`): more runs than there are. */
  function Refreshed(mem: Manifest, durable: Manifest): Manifest
  {
    if durable.generation > mem.generation then durable else mem
  }

  function CompactName(epoch: nat, generation: nat): string
  {
    "compact-" + Dec(epoch) + "-" + Dec(generation)
  }

  function ObjectOf(job: Job): SegmentObject
  {
    SegmentObject(job.segmentId, job.generation, job.records)
  }

  function Begin(s: State, h: nat, job: Job): State
  {
    if job.parent != s.disk.manifest.generation || Blank(job.segmentId) then s
    else if job.segmentId in SegmentIds(s.disk.manifest) then s
    else s.(pc := Begun(h, job))
  }

  function Step(s: State, a: Action): State
  {
    var d := s.disk;
    match a
    case Open(h) => if s.pc.Idle? then s.(handles := s.handles[h := d.manifest]) else s
    case Bump(h) =>
      if !s.pc.Idle? || h !in s.handles then s else
      var m := Refreshed(s.handles[h], d.manifest);
      var next := m.(generation := m.generation + 1);
      s.(disk := d.(manifest := next), handles := s.handles[h := next])
    case Publish(h, id, parent, records) =>
      if !s.pc.Idle? || h !in s.handles then s
      else if parent == d.manifest.generation && id in SegmentIds(d.manifest) then
        // already published: the handle takes over the durable manifest
        s.(handles := s.handles[h := d.manifest])
      else Begin(s, h, Job(false, id, parent, records, |d.manifest.segments| + 1))
    case Compact(h, epoch, records) =>
      if !s.pc.Idle? || h !in s.handles then s else
      var parent := s.handles[h].generation;
      Begin(s, h, Job(true, CompactName(epoch, parent + 1), parent, records, d.manifest.generation + 1))
    case StageSegment =>
      if !s.pc.Begun? then s else
      var job, name := s.pc.job, SegmentName(s.pc.job.segmentId);
      if name !in d.segments then
        s.(disk := d.(segments := d.segments[TempName(name) := SegmentFile(ObjectOf(job))]),
           pc := SegmentStaged(s.pc.owner, job))
      else if d.segments[name].SegmentFile? then s.(pc := Building(s.pc.owner, job, d.segments[name].sealed, 0))
      else s.(pc := Idle)
    case RenameSegment =>
      if !s.pc.SegmentStaged? then s else
      var name := SegmentName(s.pc.job.segmentId);
      if TempName(name) !in d.segments then s.(pc := Idle) else
      s.(disk := d.(segments := d.segments[name := d.segments[TempName(name)]] - {TempName(name)}),
         pc := Building(s.pc.owner, s.pc.job, ObjectOf(s.pc.job), 0))
    case StageIndex =>
      if !s.pc.Building? || s.pc.done >= |Kinds(s.pc.sealed.records)| then s else
      var o, kind := s.pc.sealed, Kinds(s.pc.sealed.records)[s.pc.done];
      var temp := TempName(IndexName(IndexId(o.segmentId, kind, o.generation)));
      s.(disk := d.(indexes := d.indexes[temp := IndexFile(kind, s.pc.job.parent, o)]),
         pc := IndexStaged(s.pc.owner, s.pc.job, o, s.pc.done))
    case RenameIndex =>
      if !s.pc.IndexStaged? || s.pc.done >= |Kinds(s.pc.sealed.records)| then s else
      var o, kind := s.pc.sealed, Kinds(s.pc.sealed.records)[s.pc.done];
      var name := IndexName(IndexId(o.segmentId, kind, o.generation));
      if TempName(name) !in d.indexes then s.(pc := Idle) else
      s.(disk := d.(indexes := d.indexes[name := d.indexes[TempName(name)]] - {TempName(name)}),
         pc := Building(s.pc.owner, s.pc.job, o, s.pc.done + 1))
    case RenameManifest =>
      if !s.pc.Building? || s.pc.done != |Kinds(s.pc.sealed.records)| then s else
      var next := Published(d.manifest, s.pc.job, s.pc.sealed);
      State(d.(manifest := next), s.handles[s.pc.owner := next], Idle)
    case Vacuum(h) =>
      if !s.pc.Idle? || h !in s.handles then s else
      var m := Refreshed(s.handles[h], d.manifest);
      State(d, s.handles[h := m], Vacuuming(h, Doomed(d.segments, SegmentRefs(m)), Doomed(d.indexes, IndexRefs(m))))
    case RemoveSegment(name) =>
      if !s.pc.Vacuuming? || name !in s.pc.segmentsLeft then s else
      s.(disk := d.(segments := d.segments - {name}), pc := s.pc.(segmentsLeft := s.pc.segmentsLeft - {name}))
    case RemoveIndex(name) =>
      if !s.pc.Vacuuming? || name !in s.pc.indexesLeft then s else
      s.(disk := d.(indexes := d.indexes - {name}), pc := s.pc.(indexesLeft := s.pc.indexesLeft - {name}))
    case FinishVacuum =>
      if s.pc.Vacuuming? && s.pc.segmentsLeft == {} && s.pc.indexesLeft == {} then s.(pc := Idle) else s
    case Crash(h) =>
      s.(handles := s.handles - {h}, pc := if !s.pc.Idle? && s.pc.owner == h then Idle else s.pc)
  }

  function Run(s: State, actions: seq<Action>): State
    decreases |actions|
  {
    if actions == [] then s else Run(Step(s, actions[0]), actions[1..])
  }

  const Start := State(Disk(Manifest(1, [], []), map[], map[]), map[], Idle)

  // ---------------------------------------------------------------- invariant

  ghost predicate SegmentBacked(segments: Dir, s: SegmentManifest)
  {
    var name := SegmentName(s.segmentId);
    && s.segmentId != "" && name in segments && segments[name].SegmentFile?
    && segments[name].sealed.segmentId == s.segmentId && segments[name].sealed.generation == s.generation
  }

  ghost predicate IndexBacked(d: Disk, x: IndexManifest)
  {
    && x == EntryFor(x.source, x.kind, x.parent) && x.segmentId in SegmentIds(d.manifest)
    && IndexName(x.indexId) in d.indexes && d.indexes[IndexName(x.indexId)] == IndexFile(x.kind, x.parent, x.source)
    && SegmentName(x.segmentId) in d.segments && d.segments[SegmentName(x.segmentId)] == SegmentFile(x.source)
  }

  /** Every index that the segment's records call for is in the manifest. */
  ghost predicate SegmentIndexed(segments: Dir, indexes: seq<IndexManifest>, id: string)
  {
    var name := SegmentName(id);
    name in segments && segments[name].SegmentFile? &&
    forall k | k in Kinds(segments[name].sealed.records) :: exists x :: x in indexes && x.segmentId == id && x.kind == k
  }

  /** Every file the manifest names is there, and holds what the manifest says: the segment
      with that id and generation, the index built from that very segment; and every segment
      named has all its indexes. */
  ghost predicate Backed(d: Disk)
  {
    && (forall i | 0 <= i < |d.manifest.segments| :: SegmentBacked(d.segments, d.manifest.segments[i]))
    && (forall i | 0 <= i < |d.manifest.indexes| :: IndexBacked(d, d.manifest.indexes[i]))
    && (forall i | 0 <= i < |d.manifest.segments| ::
          SegmentIndexed(d.segments, d.manifest.indexes, d.manifest.segments[i].segmentId))
  }

  ghost predicate NamedAfter(name: string, c: Content)
  {
    IsStaged(name) || (c.SegmentFile? && c.sealed.segmentId != "" && name == SegmentName(c.sealed.segmentId))
  }

  /** A segment file that is not staged holds the segment it is named after. */
  ghost predicate SegmentFilesOk(segments: Dir)
  {
    forall name | name in segments :: NamedAfter(name, segments[name])
  }

  /** An index file that is not staged is an artifact. */
  ghost predicate IndexFilesOk(indexes: Dir)
  {
    forall name | name in indexes :: IsStaged(name) || IsArtifact(name)
  }

  /** No copy is newer than the durable manifest, and one as new is equal to it. */
  ghost predicate HandlesOk(s: State)
  {
    forall h | h in s.handles :: Behind(s.handles[h], s.disk.manifest)
  }

  ghost predicate Behind(mem: Manifest, durable: Manifest)
  {
    mem.generation <= durable.generation && (mem.generation == durable.generation ==> mem == durable)
  }

  ghost predicate JobOk(d: Disk, job: Job)
  {
    job.segmentId != "" && job.segmentId !in SegmentIds(d.manifest)
  }

  ghost predicate BuildOk(d: Disk, job: Job, o: SegmentObject, done: nat)
  {
    && JobOk(d, job) && o.segmentId == job.segmentId && done <= |Kinds(o.records)|
    && SegmentName(o.segmentId) in d.segments && d.segments[SegmentName(o.segmentId)] == SegmentFile(o)
    && forall i | 0 <= i < done :: IndexWritten(d.indexes, EntryFor(o, Kinds(o.records)[i], job.parent))
  }

  ghost predicate IndexWritten(indexes: Dir, x: IndexManifest)
  {
    IndexName(x.indexId) in indexes && indexes[IndexName(x.indexId)] == IndexFile(x.kind, x.parent, x.source)
  }

  ghost predicate PcOk(s: State)
  {
    match s.pc
    case Idle => true
    case Begun(_, job) => JobOk(s.disk, job)
    case SegmentStaged(_, job) =>
      var temp := TempName(SegmentName(job.segmentId));
      JobOk(s.disk, job) && temp in s.disk.segments && s.disk.segments[temp] == SegmentFile(ObjectOf(job))
    case Building(_, job, o, done) => BuildOk(s.disk, job, o, done)
    case IndexStaged(_, job, o, done) =>
      && BuildOk(s.disk, job, o, done) && done < |Kinds(o.records)|
      && var x := EntryFor(o, Kinds(o.records)[done], job.parent);
         var temp := TempName(IndexName(x.indexId));
         temp in s.disk.indexes && s.disk.indexes[temp] == IndexFile(x.kind, x.parent, x.source)
    case Vacuuming(_, segments, indexes) =>
      && segments == Doomed(s.disk.segments, SegmentRefs(s.disk.manifest))
      && indexes == Doomed(s.disk.indexes, IndexRefs(s.disk.manifest))
  }

  ghost predicate Inv(s: State)
  {
    Backed(s.disk) && SegmentFilesOk(s.disk.segments) && IndexFilesOk(s.disk.indexes) && HandlesOk(s) && PcOk(s)
  }

  // ---------------------------------------------------------------- what keeps the manifest backed

  predicate Agree(a: Dir, b: Dir, names: set<string>)
  {
    forall n | n in names && n in a :: n in b && b[n] == a[n]
  }

  /** Only files that the manifest names matter. */
  lemma BackedFrame(d: Disk, e: Disk)
    requires Backed(d) && e.manifest.segments == d.manifest.segments && e.manifest.indexes == d.manifest.indexes
    requires Agree(d.segments, e.segments, SegmentRefs(d.manifest)) &&
             Agree(d.indexes, e.indexes, IndexRefs(d.manifest))
    ensures Backed(e)
  {
    hide SegmentName, IndexName, IndexId;
    var m := d.manifest;
    forall i | 0 <= i < |m.segments| ensures SegmentBacked(e.segments, e.manifest.segments[i]) {
      assert SegmentBacked(d.segments, m.segments[i]);
      assert SegmentName(m.segments[i].segmentId) in SegmentRefs(m);
    }
    forall i | 0 <= i < |m.indexes| ensures IndexBacked(e, e.manifest.indexes[i]) {
      var x := m.indexes[i];
      assert IndexBacked(d, x);
      assert IndexName(x.indexId) in IndexRefs(m);
      var j :| 0 <= j < |m.segments| && m.segments[j].segmentId == x.segmentId;
      assert SegmentName(m.segments[j].segmentId) in SegmentRefs(m);
    }
    forall i | 0 <= i < |m.segments| ensures SegmentIndexed(e.segments, m.indexes, m.segments[i].segmentId) {
      assert SegmentIndexed(d.segments, m.indexes, m.segments[i].segmentId);
      assert SegmentName(m.segments[i].segmentId) in SegmentRefs(m);
    }
  }

  lemma SegmentRefIs(d: Disk, n: string)
    requires Backed(d) && n in SegmentRefs(d.manifest)
    ensures n in d.segments && IsArtifact(n) && !IsStaged(n)
    ensures exists id :: id in SegmentIds(d.manifest) && n == SegmentName(id)
  {
    hide SegmentName, IsArtifact, IsStaged, IndexBacked;
    var i :| 0 <= i < |d.manifest.segments| && n == SegmentName(d.manifest.segments[i].segmentId);
    assert SegmentBacked(d.segments, d.manifest.segments[i]);
    assert d.manifest.segments[i].segmentId in SegmentIds(d.manifest);
    SegmentNameIs(d.manifest.segments[i].segmentId);
  }

  lemma IndexRefIs(d: Disk, n: string)
    requires Backed(d) && n in IndexRefs(d.manifest)
    ensures n in d.indexes && IsArtifact(n) && !IsStaged(n)
    ensures exists x :: x in d.manifest.indexes && IndexBacked(d, x) && n == IndexName(x.indexId)
  {
    hide IndexName, IsArtifact, IsStaged, SegmentBacked;
    var i :| 0 <= i < |d.manifest.indexes| && n == IndexName(d.manifest.indexes[i].indexId);
    var x := d.manifest.indexes[i];
    assert IndexBacked(d, x);
    IndexIdIsNotEmpty(x.source.segmentId, x.kind, x.source.generation);
    IndexNameIs(x.indexId);
  }

  lemma IndexIdIsNotEmpty(id: string, kind: Kind, generation: nat)
    ensures IndexId(id, kind, generation) != ""
  {
  }

  lemma StagedIsFree(d: Disk, temp: string)
    requires Backed(d) && IsStaged(temp)
    ensures temp !in SegmentRefs(d.manifest) && temp !in IndexRefs(d.manifest)
  {
    hide Backed, IsStaged, IsArtifact, SegmentRefs, IndexRefs;
    if temp in SegmentRefs(d.manifest) { SegmentRefIs(d, temp); }
    if temp in IndexRefs(d.manifest) { IndexRefIs(d, temp); }
  }

  lemma NewSegmentIsFree(d: Disk, id: string)
    requires Backed(d) && id !in SegmentIds(d.manifest)
    ensures SegmentName(id) !in SegmentRefs(d.manifest)
  {
    hide Backed, IsStaged, IsArtifact, SegmentRefs, SegmentName, SegmentIds;
    if SegmentName(id) in SegmentRefs(d.manifest) {
      SegmentRefIs(d, SegmentName(id));
      var other :| other in SegmentIds(d.manifest) && SegmentName(id) == SegmentName(other);
      NamesInjective(id, other);
    }
  }

  lemma NewIndexIsFree(d: Disk, id: string, kind: Kind, generation: nat)
    requires Backed(d) && id !in SegmentIds(d.manifest)
    ensures IndexName(IndexId(id, kind, generation)) !in IndexRefs(d.manifest)
  {
    hide Backed, IsStaged, IsArtifact, IndexRefs, IndexName, SegmentIds, IndexId;
    var n := IndexName(IndexId(id, kind, generation));
    if n in IndexRefs(d.manifest) {
      IndexRefIs(d, n);
      var x :| x in d.manifest.indexes && IndexBacked(d, x) && n == IndexName(x.indexId);
      NamesInjective(IndexId(id, kind, generation), x.indexId);
      IndexIdInjective(id, kind, generation, x.source.segmentId, x.kind, x.source.generation);
    }
  }

  // ---------------------------------------------------------------- each kind of step

  lemma BumpKeepsInv(s: State, h: nat)
    requires Inv(s)
    ensures Inv(Step(s, Bump(h)))
  {
    hide SegmentFilesOk, IndexFilesOk, SegmentIds;
    if s.pc.Idle? && h in s.handles {
      assert Behind(s.handles[h], s.disk.manifest);
      var t := Step(s, Bump(h));
      BackedFrame(s.disk, t.disk);
      hide Backed;
      forall g | g in t.handles ensures Behind(t.handles[g], t.disk.manifest) {
        if g != h { assert Behind(s.handles[g], s.disk.manifest); }
      }
    }
  }

  lemma BeginKeepsInv(s: State, a: Action)
    requires Inv(s) && (a.Open? || a.Publish? || a.Compact? || a.Crash? || a.FinishVacuum?)
    ensures Inv(Step(s, a))
  {
    hide Backed, SegmentFilesOk, IndexFilesOk, SegmentIds, Dec, CompactName;
    var t := Step(s, a);
    assert t.disk == s.disk;
    forall g | g in t.handles ensures Behind(t.handles[g], t.disk.manifest) {
      if g in s.handles { assert Behind(s.handles[g], s.disk.manifest); }
    }
  }

  lemma StageSegmentKeepsInv(s: State)
    requires Inv(s)
    ensures Inv(Step(s, StageSegment))
  {
    hide IndexFilesOk, SegmentIds, SegmentName, TempName, IsStaged, IsArtifact, SegmentRefs, IndexRefs;
    if s.pc.Begun? {
      var job, d := s.pc.job, s.disk;
      var name := SegmentName(job.segmentId);
      SegmentNameIs(job.segmentId);
      var t := Step(s, StageSegment);
      if name in d.segments {
        assert NamedAfter(name, d.segments[name]);
        NamesInjective(job.segmentId, d.segments[name].sealed.segmentId);
      } else {
        StagedIsFree(d, TempName(name));
        BackedFrame(d, t.disk);
      }
      assert forall h | h in t.handles :: Behind(s.handles[h], s.disk.manifest);
    }
  }

  lemma RenameSegmentKeepsInv(s: State)
    requires Inv(s)
    ensures Inv(Step(s, RenameSegment))
  {
    hide IndexFilesOk, SegmentIds, SegmentName, TempName, IsStaged, IsArtifact, SegmentRefs, IndexRefs;
    if s.pc.SegmentStaged? {
      var job, d := s.pc.job, s.disk;
      SegmentNameIs(job.segmentId);
      StagedIsFree(d, TempName(SegmentName(job.segmentId)));
      NewSegmentIsFree(d, job.segmentId);
      var t := Step(s, RenameSegment);
      BackedFrame(d, t.disk);
      hide Backed;
      assert forall h | h in t.handles :: Behind(s.handles[h], s.disk.manifest);
      forall name | name in t.disk.segments ensures NamedAfter(name, t.disk.segments[name]) {
        if name in d.segments { assert NamedAfter(name, d.segments[name]); }
      }
    }
  }

  lemma StageIndexKeepsInv(s: State)
    requires Inv(s)
    ensures Inv(Step(s, StageIndex))
  {
    hide SegmentFilesOk, SegmentIds, SegmentName, IndexName, IndexId, TempName, IsStaged, IsArtifact, SegmentRefs,
        IndexRefs, Kinds;
    var t := Step(s, StageIndex);
    if t != s {
      var o, kind, d := s.pc.sealed, Kinds(s.pc.sealed.records)[s.pc.done], s.disk;
      var id := IndexId(o.segmentId, kind, o.generation);
      IndexIdIsNotEmpty(o.segmentId, kind, o.generation);
      IndexNameIs(id);
      StagedIsFree(d, TempName(IndexName(id)));
      BackedFrame(d, t.disk);
      hide Backed;
      assert forall h | h in t.handles :: Behind(s.handles[h], s.disk.manifest);
      forall i | 0 <= i < s.pc.done
        ensures IndexWritten(t.disk.indexes, EntryFor(o, Kinds(o.records)[i], s.pc.job.parent))
      {
        var x := EntryFor(o, Kinds(o.records)[i], s.pc.job.parent);
        assert IndexWritten(d.indexes, x);
        IndexIdIsNotEmpty(o.segmentId, x.kind, o.generation);
        IndexNameIs(x.indexId);
      }
    }
  }

  lemma RenameIndexKeepsInv(s: State)
    requires Inv(s)
    ensures Inv(Step(s, RenameIndex))
  {
    hide SegmentFilesOk, SegmentIds, SegmentName, IndexName, IndexId, TempName, IsStaged, IsArtifact, SegmentRefs,
        IndexRefs, Kinds;
    var t := Step(s, RenameIndex);
    if t != s {
      var o, kind, d := s.pc.sealed, Kinds(s.pc.sealed.records)[s.pc.done], s.disk;
      var id := IndexId(o.segmentId, kind, o.generation);
      IndexIdIsNotEmpty(o.segmentId, kind, o.generation);
      IndexNameIs(id);
      StagedIsFree(d, TempName(IndexName(id)));
      NewIndexIsFree(d, o.segmentId, kind, o.generation);
      BackedFrame(d, t.disk);
      hide Backed;
      assert forall h | h in t.handles :: Behind(s.handles[h], s.disk.manifest);
      forall i | 0 <= i < s.pc.done + 1
        ensures IndexWritten(t.disk.indexes, EntryFor(o, Kinds(o.records)[i], s.pc.job.parent))
      {
        OneMoreIndex(s, t, i);
      }
    }
  }

  /** The rename leaves the indexes written before it, and adds its own. */
  lemma OneMoreIndex(s: State, t: State, i: nat)
    requires s.pc.IndexStaged? && PcOk(s) && t == Step(s, RenameIndex) && i <= s.pc.done
    ensures IndexWritten(t.disk.indexes, EntryFor(s.pc.sealed, Kinds(s.pc.sealed.records)[i], s.pc.job.parent))
  {
    hide SegmentIds, SegmentName, IndexName, IndexId, TempName, IsStaged, IsArtifact, Kinds;
    var o, parent := s.pc.sealed, s.pc.job.parent;
    var x, y := EntryFor(o, Kinds(o.records)[i], parent), EntryFor(o, Kinds(o.records)[s.pc.done], parent);
    IndexIdIsNotEmpty(o.segmentId, x.kind, o.generation);
    IndexNameIs(x.indexId);
    IndexIdIsNotEmpty(o.segmentId, y.kind, o.generation);
    IndexNameIs(y.indexId);
    assert i < s.pc.done ==> IndexWritten(s.disk.indexes, x);
    if IndexName(x.indexId) == IndexName(y.indexId) {
      NamesInjective(x.indexId, y.indexId);
      IndexIdInjective(o.segmentId, x.kind, o.generation, o.segmentId, y.kind, o.generation);
    }
  }

  lemma PublishedIsBacked(d: Disk, job: Job, o: SegmentObject)
    requires Backed(d) && BuildOk(d, job, o, |Kinds(o.records)|)
    ensures Backed(d.(manifest := Published(d.manifest, job, o)))
  {
    hide SegmentName, IndexName, IndexId, Kinds;
    var m, e := d.manifest, d.(manifest := Published(d.manifest, job, o));
    var last := |e.manifest.segments| - 1;
    assert e.manifest.segments[last] == SegmentManifest(o.segmentId, o.generation);
    forall i | 0 <= i < |e.manifest.segments| ensures SegmentBacked(e.segments, e.manifest.segments[i]) {
      if i < last { assert SegmentBacked(d.segments, m.segments[i]); }
    }
    assert o.segmentId in SegmentIds(e.manifest);
    forall i | 0 <= i < |e.manifest.indexes| ensures IndexBacked(e, e.manifest.indexes[i]) {
      var x := e.manifest.indexes[i];
      var kept := if job.compact then Retain(m.indexes, SegmentIds(m)) else m.indexes;
      if i < |kept| {
        assert x == kept[i] && x in kept;
        OldIndexBacked(d, e, job, o, x);
      } else {
        var k := i - |kept|;
        assert x == EntryFor(o, Kinds(o.records)[k], job.parent);
        assert IndexWritten(d.indexes, EntryFor(o, Kinds(o.records)[k], job.parent));
      }
    }
    forall i | 0 <= i < |e.manifest.segments|
      ensures SegmentIndexed(e.segments, e.manifest.indexes, e.manifest.segments[i].segmentId)
    {
      if i < last {
        assert SegmentIndexed(d.segments, m.indexes, m.segments[i].segmentId);
        MoreIndexes(d.segments, m.indexes, EntriesFor(o, job.parent), m.segments[i].segmentId);
      } else {
        AllKindsIndexed(d.segments, if job.compact then Retain(m.indexes, SegmentIds(m)) else m.indexes, o, job.parent);
      }
    }
  }

  lemma MoreIndexes(segments: Dir, indexes: seq<IndexManifest>, more: seq<IndexManifest>, id: string)
    requires SegmentIndexed(segments, indexes, id)
    ensures SegmentIndexed(segments, indexes + more, id)
  {
    hide Kinds, SegmentName;
    forall k | k in Kinds(segments[SegmentName(id)].sealed.records)
      ensures exists x :: x in indexes + more && x.segmentId == id && x.kind == k
    {
      var x :| x in indexes && x.segmentId == id && x.kind == k;
      assert x in indexes + more;
    }
  }

  lemma AllKindsIndexed(segments: Dir, indexes: seq<IndexManifest>, o: SegmentObject, parent: nat)
    requires SegmentName(o.segmentId) in segments && segments[SegmentName(o.segmentId)] == SegmentFile(o)
    ensures SegmentIndexed(segments, indexes + EntriesFor(o, parent), o.segmentId)
  {
    hide Kinds, SegmentName, IndexId;
    var all := indexes + EntriesFor(o, parent);
    forall k | k in Kinds(o.records) ensures exists x :: x in all && x.segmentId == o.segmentId && x.kind == k {
      var i :| 0 <= i < |Kinds(o.records)| && Kinds(o.records)[i] == k;
      assert all[|indexes| + i] == EntryFor(o, k, parent);
      assert EntryFor(o, k, parent) in all;
    }
  }

  /** Compaction leaves one segment and its own indexes: nothing of what it replaces stays. */
  lemma CompactionReplacesAll(d: Disk, job: Job, o: SegmentObject)
    requires Backed(d) && job.compact
    ensures var m := Published(d.manifest, job, o);
            m.segments == [SegmentManifest(o.segmentId, o.generation)] && m.indexes == EntriesFor(o, job.parent)
  {
    hide SegmentName, IndexName, IndexId, Kinds;
    forall i | 0 <= i < |d.manifest.indexes| ensures d.manifest.indexes[i].segmentId in SegmentIds(d.manifest) {
      assert IndexBacked(d, d.manifest.indexes[i]);
    }
    RetainNone(d.manifest.indexes, SegmentIds(d.manifest));
  }

  lemma {:induction false} RetainNone(indexes: seq<IndexManifest>, gone: set<string>)
    requires forall i | 0 <= i < |indexes| :: indexes[i].segmentId in gone
    ensures Retain(indexes, gone) == []
  {
    if indexes != [] { RetainNone(indexes[1..], gone); }
  }

  /** Compaction retains no index: every index belongs to a segment it replaces. */
  lemma OldIndexBacked(d: Disk, e: Disk, job: Job, o: SegmentObject, x: IndexManifest)
    requires Backed(d) && e == d.(manifest := Published(d.manifest, job, o))
    requires x in d.manifest.indexes && (job.compact ==> x in Retain(d.manifest.indexes, SegmentIds(d.manifest)))
    ensures IndexBacked(e, x)
  {
    hide SegmentName, IndexName, IndexId, Kinds;
    var i :| 0 <= i < |d.manifest.indexes| && d.manifest.indexes[i] == x;
    assert IndexBacked(d, x);
    var j :| 0 <= j < |d.manifest.segments| && d.manifest.segments[j].segmentId == x.segmentId;
    assert !job.compact ==> e.manifest.segments[j].segmentId == x.segmentId;
  }

  lemma RenameManifestKeepsInv(s: State)
    requires Inv(s)
    ensures Inv(Step(s, RenameManifest))
  {
    hide Backed, SegmentFilesOk, IndexFilesOk, SegmentIds, Kinds;
    if s.pc.Building? && s.pc.done == |Kinds(s.pc.sealed.records)| {
      PublishedIsBacked(s.disk, s.pc.job, s.pc.sealed);
      var t := Step(s, RenameManifest);
      forall g | g in t.handles ensures Behind(t.handles[g], t.disk.manifest) {
        if g in s.handles { assert Behind(s.handles[g], s.disk.manifest); }
      }
    }
  }

  lemma VacuumKeepsInv(s: State, h: nat)
    requires Inv(s)
    ensures Inv(Step(s, Vacuum(h)))
  {
    hide Backed, SegmentFilesOk, IndexFilesOk, Doomed, SegmentRefs, IndexRefs;
    if s.pc.Idle? && h in s.handles {
      assert Behind(s.handles[h], s.disk.manifest);
      var t := Step(s, Vacuum(h));
      assert forall g | g in t.handles && g != h :: Behind(s.handles[g], s.disk.manifest);
    }
  }

  lemma DoomedIsFree(d: Disk, name: string)
    requires Backed(d)
    ensures IsDoomed(name, SegmentRefs(d.manifest)) ==> name !in SegmentRefs(d.manifest)
    ensures IsDoomed(name, IndexRefs(d.manifest)) ==> name !in IndexRefs(d.manifest)
  {
    hide Backed, IsStaged, IsArtifact, SegmentRefs, IndexRefs;
    if IsStaged(name) { StagedIsFree(d, name); }
  }

  lemma RemoveKeepsInv(s: State, a: Action)
    requires Inv(s) && (a.RemoveSegment? || a.RemoveIndex?)
    ensures Inv(Step(s, a))
  {
    hide NamedAfter, IsStaged, IsArtifact, SegmentRefs, IndexRefs, IsDoomed;
    var t := Step(s, a);
    if t != s {
      DoomedIsFree(s.disk, a.name);
      BackedFrame(s.disk, t.disk);
      hide Backed;
      assert forall h | h in t.handles :: Behind(s.handles[h], s.disk.manifest);
    }
  }

  /** Every step keeps every file the manifest names, and its content. */
  lemma StepKeepsInv(s: State, a: Action)
    requires Inv(s)
    ensures Inv(Step(s, a))
  {
    hide Inv, Step;
    match a
    case Bump(h) => BumpKeepsInv(s, h);
    case StageSegment => StageSegmentKeepsInv(s);
    case RenameSegment => RenameSegmentKeepsInv(s);
    case StageIndex => StageIndexKeepsInv(s);
    case RenameIndex => RenameIndexKeepsInv(s);
    case RenameManifest => RenameManifestKeepsInv(s);
    case Vacuum(h) => VacuumKeepsInv(s, h);
    case RemoveSegment(_) => RemoveKeepsInv(s, a);
    case RemoveIndex(_) => RemoveKeepsInv(s, a);
    case _ => BeginKeepsInv(s, a);
  }

  lemma {:induction false} RunKeepsInv(s: State, actions: seq<Action>)
    requires Inv(s)
    ensures Inv(Run(s, actions))
    decreases |actions|
  {
    hide Inv, Step;
    if actions != [] {
      StepKeepsInv(s, actions[0]);
      RunKeepsInv(Step(s, actions[0]), actions[1..]);
    }
  }

  /** In every run of publish, compact, vacuum, commits and crashes by any number of handles,
      each segment and index file that the durable manifest names exists and is the one it means. */
  lemma EveryRunIsBacked(actions: seq<Action>)
    ensures Backed(Run(Start, actions).disk)
  {
    RunKeepsInv(Start, actions);
  }

  /** A vacuum that gets to its end leaves exactly the files the durable manifest names. */
  lemma FinishedVacuumIsExact(actions: seq<Action>)
    ensures var s := Run(Start, actions);
            s.pc.Vacuuming? && s.pc.segmentsLeft == {} && s.pc.indexesLeft == {} ==>
              s.disk.segments.Keys == SegmentRefs(s.disk.manifest) && s.disk.indexes.Keys == IndexRefs(s.disk.manifest)
  {
    RunKeepsInv(Start, actions);
    var s := Run(Start, actions);
    if s.pc.Vacuuming? && s.pc.segmentsLeft == {} && s.pc.indexesLeft == {} { NothingDoomedIsExact(s); }
  }

  lemma NothingDoomedIsExact(s: State)
    requires Inv(s) && s.pc.Vacuuming? && s.pc.segmentsLeft == {} && s.pc.indexesLeft == {}
    ensures s.disk.segments.Keys == SegmentRefs(s.disk.manifest) && s.disk.indexes.Keys == IndexRefs(s.disk.manifest)
  {
    hide Backed, HandlesOk, SegmentRefs, IndexRefs, IsStaged, IsArtifact, SegmentName;
    var d := s.disk;
    forall n | n in d.segments ensures n in SegmentRefs(d.manifest) {
      assert NamedAfter(n, d.segments[n]);
      assert n !in Doomed(d.segments, SegmentRefs(d.manifest));
      if !IsStaged(n) { SegmentNameIs(d.segments[n].sealed.segmentId); }
    }
    forall n | n in d.indexes ensures n in IndexRefs(d.manifest) {
      assert n !in Doomed(d.indexes, IndexRefs(d.manifest));
    }
    forall n | n in SegmentRefs(d.manifest) ensures n in d.segments { SegmentRefIs(d, n); }
    forall n | n in IndexRefs(d.manifest) ensures n in d.indexes { IndexRefIs(d, n); }
  }

  /** Publishing an id that the manifest already names always finds the object, in the
      generation the manifest records. */
  lemma RepublishFindsObject(s: State, i: nat)
    requires Inv(s) && i < |s.disk.manifest.segments|
    ensures var m := s.disk.manifest.segments[i];
            SegmentName(m.segmentId) in s.disk.segments && s.disk.segments[SegmentName(m.segmentId)].SegmentFile? &&
            s.disk.segments[SegmentName(m.segmentId)].sealed.generation == m.generation
  {
    assert SegmentBacked(s.disk.segments, s.disk.manifest.segments[i]);
  }

  /** A publication seals the records it was given if and only if no file of that name was
      left behind by an earlier one, or the file left behind holds the same records. */
  lemma WhatGetsSealed(s: State)
    requires Inv(s) && s.pc.Begun?
    ensures var t := Step(Step(s, StageSegment), RenameSegment); var name := SegmentName(s.pc.job.segmentId);
            && t.pc.Building?
            && (t.pc.sealed.records == s.pc.job.records <==>
                (name in s.disk.segments ==>
                   s.disk.segments[name].SegmentFile? && s.disk.segments[name].sealed.records == s.pc.job.records))
  {
    hide Backed, HandlesOk, SegmentRefs, IndexRefs, SegmentName;
    var name := SegmentName(s.pc.job.segmentId);
    SegmentNameIs(s.pc.job.segmentId);
    if name in s.disk.segments { assert NamedAfter(name, s.disk.segments[name]); }
  }

  lemma {:induction false} RunSplit(s: State, a: seq<Action>, b: seq<Action>)
    ensures Run(s, a + b) == Run(Run(s, a), b)
    decreases |a|
  {
    hide Step;
    if a == [] {
      assert a + b == b;
    } else {
      assert (a + b)[1..] == a[1..] + b;
      RunSplit(Step(s, a[0]), a[1..], b);
    }
  }

  lemma RunTwo(s: State, a: Action, b: Action)
    ensures Run(s, [a, b]) == Step(Step(s, a), b)
  {
    hide Step;
    assert [a, b][1..] == [b] && [b][1..] == [];
    var t := Step(s, a);
    assert Run(t, [b]) == Run(Step(t, b), []);
  }

  const Empty := Manifest(1, [], [])

  /** Publish a segment and crash before its indexes are written. */
  function Interrupted(records: Snapshot): seq<Action>
  {
    [Open(0), Publish(0, "s", 1, records)] + [StageSegment, RenameSegment] + [Crash(0), Open(0)]
  }

  /** Publish it again, to the end. */
  function Again(records: Snapshot): seq<Action>
  {
    [Publish(0, "s", 1, records), StageSegment] + [StageIndex, RenameIndex] + [StageIndex, RenameIndex] +
        [RenameManifest, Open(1)]
  }

  lemma NameOfOne()
    ensures !Blank("s")
  {
    assert "s"[0] in "s";
  }

  lemma BeginsFresh(records: Snapshot)
    ensures var t := Step(Step(Start, Open(0)), Publish(0, "s", 1, records));
            t.disk == Start.disk && t.pc == Begun(0, Job(false, "s", 1, records, 1)) && t.handles == map[0 := Empty]
  {
    hide Blank;
    NameOfOne();
  }

  lemma WritesSegment(s: State, job: Job)
    requires s.pc == Begun(0, job) && job.segmentId != "" && SegmentName(job.segmentId) !in s.disk.segments
    ensures var t := Step(Step(s, StageSegment), RenameSegment); var name := SegmentName(job.segmentId);
            && t.pc == Building(0, job, ObjectOf(job), 0)
            && t.disk.manifest == s.disk.manifest && t.handles == s.handles
            && name in t.disk.segments && t.disk.segments[name] == SegmentFile(ObjectOf(job))
  {
    SegmentNameIs(job.segmentId);
    hide SegmentName, TempName, IsStaged, IsArtifact;
  }

  lemma InterruptedLeavesFile(records: Snapshot)
    ensures var t := Run(Start, Interrupted(records)); var name := SegmentName("s");
            && t.disk.manifest == Empty && t.handles == map[0 := Empty] && t.pc.Idle?
            && name in t.disk.segments && t.disk.segments[name] == SegmentFile(SegmentObject("s", 1, records))
  {
    hide Run, SegmentName, TempName, Step;
    var a, b, c := [Open(0), Publish(0, "s", 1, records)], [StageSegment, RenameSegment], [Crash(0), Open(0)];
    RunSplit(Start, a + b, c);
    RunSplit(Start, a, b);
    RunTwo(Start, Open(0), Publish(0, "s", 1, records));
    BeginsFresh(records);
    var s := Run(Start, a);
    RunTwo(s, StageSegment, RenameSegment);
    WritesSegment(s, Job(false, "s", 1, records, 1));
    var t := Run(s, b);
    RunTwo(t, Crash(0), Open(0));
    CrashAndReopen(t);
  }

  lemma CrashAndReopen(s: State)
    requires s.pc.Building? && s.pc.owner == 0 && s.handles.Keys == {0}
    ensures var t := Step(Step(s, Crash(0)), Open(0));
            t.disk == s.disk && t.pc.Idle? && t.handles == map[0 := s.disk.manifest]
  {
  }

  lemma IndexWrittenNext(s: State)
    requires s.pc.Building? && s.pc.done < |Kinds(s.pc.sealed.records)|
    ensures var t := Step(Step(s, StageIndex), RenameIndex);
            && t.pc == Building(s.pc.owner, s.pc.job, s.pc.sealed, s.pc.done + 1)
            && t.disk.segments == s.disk.segments && t.disk.manifest == s.disk.manifest
  {
    hide IndexName, IndexId, TempName, Kinds;
  }

  lemma ReusesOrphan(s: State, sealed: SegmentObject, records: Snapshot)
    requires s.disk.manifest == Empty && 0 in s.handles && s.pc.Idle?
    requires SegmentName("s") in s.disk.segments && s.disk.segments[SegmentName("s")] == SegmentFile(sealed)
    ensures var t := Step(Step(s, Publish(0, "s", 1, records)), StageSegment);
            t.pc == Building(0, Job(false, "s", 1, records, 1), sealed, 0) && t.disk == s.disk
  {
    hide SegmentName, TempName, Blank;
    NameOfOne();
  }

  lemma FinishesWith(s: State)
    requires s.pc.Building? && s.pc.done == |Kinds(s.pc.sealed.records)| && s.disk.manifest == Empty &&
             !s.pc.job.compact
    ensures var t := Step(Step(s, RenameManifest), Open(1)); var o := s.pc.sealed;
            && t.disk.manifest.segments == [SegmentManifest(o.segmentId, o.generation)]
            && t.disk.segments == s.disk.segments
  {
    hide Kinds, EntriesFor;
  }

  lemma AgainPublishes(s: State, sealed: SegmentObject, records: Snapshot)
    requires s.disk.manifest == Empty && 0 in s.handles && s.pc.Idle? && !sealed.records.hasText &&
             !sealed.records.hasVectors
    requires SegmentName("s") in s.disk.segments && s.disk.segments[SegmentName("s")] == SegmentFile(sealed)
    ensures var t := Run(s, Again(records));
            && t.disk.manifest.segments == [SegmentManifest(sealed.segmentId, sealed.generation)]
            && t.disk.segments == s.disk.segments
  {
    hide Run, SegmentName, Step;
    var a, b, c := [Publish(0, "s", 1, records), StageSegment], [StageIndex, RenameIndex], [RenameManifest, Open(1)];
    RunSplit(s, a + b + b, c);
    RunSplit(s, a + b, b);
    RunSplit(s, a, b);
    RunTwo(s, Publish(0, "s", 1, records), StageSegment);
    ReusesOrphan(s, sealed, records);
    var t := Run(s, a);
    RunTwo(t, StageIndex, RenameIndex);
    IndexWrittenNext(t);
    var u := Run(t, b);
    RunTwo(u, StageIndex, RenameIndex);
    IndexWrittenNext(u);
    var v := Run(u, b);
    RunTwo(v, RenameManifest, Open(1));
    FinishesWith(v);
  }

  /** A run after which the durable manifest names a segment that holds the records of the
      publication that crashed, not those of the one that completed. */
  lemma OrphanIsPublished(lost: seq<string>, rows: seq<string>)
    ensures var t := Run(Start, Interrupted(Snapshot(lost, false, false)) + Again(Snapshot(rows, false, false)));
            && t.disk.manifest.segments == [SegmentManifest("s", 1)] && SegmentName("s") in t.disk.segments
            && t.disk.segments[SegmentName("s")] == SegmentFile(SegmentObject("s", 1, Snapshot(lost, false, false)))
  {
    hide Run, Interrupted, Again, SegmentName;
    var before, after := Snapshot(lost, false, false), Snapshot(rows, false, false);
    RunSplit(Start, Interrupted(before), Again(after));
    InterruptedLeavesFile(before);
    AgainPublishes(Run(Start, Interrupted(before)), SegmentObject("s", 1, before), after);
  }
}
