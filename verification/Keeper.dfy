/** The branch log service (crates/tracedb-keeper/src/lib.rs): idempotent commits numbered per
    branch, persisted by writing a staged file and renaming it. */
module Keeper {
  import opened Ordering

  datatype CommitRequest = CommitRequest(branchId: string, idempotencyKey: string, payload: string)

  datatype CommitAck = CommitAck(branchId: string, epoch: nat, idempotencyKey: string)

  datatype DurableCommit = DurableCommit(branchId: string, epoch: nat, idempotencyKey: string, payload: string)

  datatype Service = Service(nextEpoch: map<string, nat>, idempotent: map<string, CommitAck>, log: seq<DurableCommit>)

  const SEPARATOR: char := '\U{1f}'

  function Key(branch: string, idempotencyKey: string): string
  {
    branch + [SEPARATOR] + idempotencyKey
  }

  function Epoch(s: Service, branch: string): nat
  {
    if branch in s.nextEpoch then s.nextEpoch[branch] else 1
  }

  function AckFor(s: Service, r: CommitRequest): CommitAck
  {
    CommitAck(r.branchId, Epoch(s, r.branchId), r.idempotencyKey)
  }

  /** A commit in memory: the state it leaves and the acknowledgement. */
  function Commit(s: Service, r: CommitRequest): (Service, CommitAck)
  {
    var key := Key(r.branchId, r.idempotencyKey);
    if key in s.idempotent then (s, s.idempotent[key])
    else
      var ack := AckFor(s, r);
      (Service(s.nextEpoch[r.branchId := ack.epoch + 1], s.idempotent[key := ack],
               s.log + [DurableCommit(r.branchId, ack.epoch, r.idempotencyKey, r.payload)]), ack)
  }

  class BranchWalService {
    var nextEpoch: map<string, nat>
    var idempotent: map<string, CommitAck>
    var commitLog: seq<DurableCommit>

    ghost function State(): Service reads this { Service(nextEpoch, idempotent, commitLog) }

    constructor (loaded: Service)
      ensures State() == loaded
    {
      nextEpoch, idempotent, commitLog := loaded.nextEpoch, loaded.idempotent, loaded.log;
    }

    method CommitInMemory(request: CommitRequest) returns (ack: CommitAck)
      modifies this
      ensures (State(), ack) == Commit(old(State()), request)
    {
      var key := Key(request.branchId, request.idempotencyKey);
      if key in idempotent { return idempotent[key]; }
      if request.branchId !in nextEpoch { nextEpoch := nextEpoch[request.branchId := 1]; }
      var epoch := nextEpoch[request.branchId];
      ack := CommitAck(request.branchId, epoch, request.idempotencyKey);
      nextEpoch := nextEpoch[request.branchId := epoch + 1];
      commitLog := commitLog + [DurableCommit(ack.branchId, ack.epoch, ack.idempotencyKey, request.payload)];
      idempotent := idempotent[key := ack];
      assert nextEpoch == old(nextEpoch)[request.branchId := epoch + 1];
    }
  }

  // ---------------------------------------------------------------- keys

  /** One id, with the separator after it, begins the other. */
  predicate Related(a: string, b: string)
  {
    a + [SEPARATOR] <= b + [SEPARATOR] || b + [SEPARATOR] <= a + [SEPARATOR]
  }

  lemma LongerKey(a: string, b: string, l: string)
    requires a + [SEPARATOR] <= b + [SEPARATOR]
    ensures Key(a, (b + [SEPARATOR])[|a| + 1..] + l) == Key(b, l)
  {
    var p, q := a + [SEPARATOR], b + [SEPARATOR];
    assert q == p + q[|p|..];
  }

  /** Two branch ids can share a key if and only if they are related. */
  lemma SharedKeyIffRelated(a: string, b: string)
    ensures Related(a, b) <==> exists k, l :: Key(a, k) == Key(b, l)
  {
    var p, q := a + [SEPARATOR], b + [SEPARATOR];
    if p <= q { LongerKey(a, b, ""); }
    if q <= p { LongerKey(b, a, ""); }
    forall k, l | Key(a, k) == Key(b, l) ensures Related(a, b) {
      var s := p + k;
      assert s == q + l && p == s[..|p|] && q == s[..|q|];
    }
  }

  /** A key tells unrelated branches apart, and the idempotency keys of one branch. */
  lemma KeyInjective(a: string, k: string, b: string, l: string)
    requires Key(a, k) == Key(b, l) && (a == b || !Related(a, b))
    ensures a == b && k == l
  {
    SharedKeyIffRelated(a, b);
    assert Key(a, k)[|a| + 1..] == k && Key(b, l)[|b| + 1..] == l;
  }

  lemma BeginsFree(a: string, b: string)
    requires a + [SEPARATOR] <= b + [SEPARATOR] && SEPARATOR !in b
    ensures a == b
  {
    var p, q := a + [SEPARATOR], b + [SEPARATOR];
    assert q[|a|] == p[|a|] == SEPARATOR;
    assert forall i | 0 <= i < |b| :: q[i] == b[i] && b[i] in b;
    assert a == p[..|a|] == q[..|a|] == b;
  }

  /** Different ids without the separator are unrelated. */
  lemma SeparatorFreeIsUnrelated(a: string, b: string)
    requires SEPARATOR !in a && SEPARATOR !in b
    ensures Related(a, b) <==> a == b
  {
    if a + [SEPARATOR] <= b + [SEPARATOR] {
      BeginsFree(a, b);
    } else if b + [SEPARATOR] <= a + [SEPARATOR] {
      BeginsFree(b, a);
    }
  }

  // ---------------------------------------------------------------- the log of a branch

  function Branch(log: seq<DurableCommit>, branch: string): seq<DurableCommit>
  {
    if log == [] then []
    else
      var last := log[|log| - 1];
      Branch(log[..|log| - 1], branch) + if last.branchId == branch then [last] else []
  }

  lemma BranchGrows(log: seq<DurableCommit>, c: DurableCommit, branch: string)
    ensures Branch(log + [c], branch) == Branch(log, branch) + if c.branchId == branch then [c] else []
  {
    assert (log + [c])[..|log|] == log;
  }

  /** Epochs 1, 2, 3, ... */
  ghost predicate Consecutive(log: seq<DurableCommit>)
  {
    forall i | 0 <= i < |log| :: log[i].epoch == i + 1
  }

  ghost predicate BranchOk(s: Service, branch: string)
  {
    Consecutive(Branch(s.log, branch)) && Epoch(s, branch) == |Branch(s.log, branch)| + 1
  }

  function AckOf(c: DurableCommit): CommitAck
  {
    CommitAck(c.branchId, c.epoch, c.idempotencyKey)
  }

  /** Each logged commit has its own key, under which its acknowledgement is kept. */
  ghost predicate LogOk(s: Service)
  {
    && (forall i | 0 <= i < |s.log| :: CommitKept(s, s.log[i]))
    && (forall i, j | 0 <= i < j < |s.log| :: KeyOf(s.log[i]) != KeyOf(s.log[j]))
    && (forall k | k in s.idempotent :: exists i :: 0 <= i < |s.log| && KeyOf(s.log[i]) == k)
  }

  function KeyOf(c: DurableCommit): string
  {
    Key(c.branchId, c.idempotencyKey)
  }

  ghost predicate CommitKept(s: Service, c: DurableCommit)
  {
    KeyOf(c) in s.idempotent && s.idempotent[KeyOf(c)] == AckOf(c)
  }

  ghost predicate ServiceOk(s: Service)
  {
    (forall branch :: BranchOk(s, branch)) && LogOk(s)
  }

  const Fresh := Service(map[], map[], [])

  lemma FreshIsOk()
    ensures ServiceOk(Fresh)
  {
  }

  lemma CommitKeepsBranch(s: Service, r: CommitRequest, branch: string)
    requires BranchOk(s, branch)
    ensures BranchOk(Commit(s, r).0, branch)
  {
    hide Key;
    if Key(r.branchId, r.idempotencyKey) !in s.idempotent {
      BranchGrows(s.log, DurableCommit(r.branchId, Epoch(s, r.branchId), r.idempotencyKey, r.payload), branch);
    }
  }

  lemma CommitKeepsLog(s: Service, r: CommitRequest)
    requires LogOk(s)
    ensures LogOk(Commit(s, r).0)
  {
    hide Key;
    var key := Key(r.branchId, r.idempotencyKey);
    if key !in s.idempotent {
      var t := Commit(s, r).0;
      var n := |s.log|;
      assert t.log[n] == DurableCommit(r.branchId, Epoch(s, r.branchId), r.idempotencyKey, r.payload) &&
          KeyOf(t.log[n]) == key;
      forall i | 0 <= i < n ensures t.log[i] == s.log[i] && KeyOf(t.log[i]) != key && CommitKept(t, t.log[i]) {
        assert CommitKept(s, s.log[i]);
      }
      assert CommitKept(t, t.log[n]);
      forall k | k in t.idempotent ensures exists i :: 0 <= i < |t.log| && KeyOf(t.log[i]) == k {
        if k != key {
          var i :| 0 <= i < n && KeyOf(s.log[i]) == k;
          assert KeyOf(t.log[i]) == k;
        }
      }
    }
  }

  lemma CommitKeepsOk(s: Service, r: CommitRequest)
    requires ServiceOk(s)
    ensures ServiceOk(Commit(s, r).0)
  {
    hide BranchOk, LogOk, Commit;
    CommitKeepsLog(s, r);
    forall branch ensures BranchOk(Commit(s, r).0, branch) { CommitKeepsBranch(s, r, branch); }
  }

  /** Was this (branch, key) committed before, and with what? */
  function Logged(log: seq<DurableCommit>, branch: string, key: string): Option<DurableCommit>
  {
    if log == [] then None
    else
      var last := log[|log| - 1];
      if last.branchId == branch && last.idempotencyKey == key then Some(last)
      else Logged(log[..|log| - 1], branch, key)
  }

  lemma {:induction false} LoggedIs(log: seq<DurableCommit>, branch: string, key: string)
    ensures var l := Logged(log, branch, key);
            && (l.Some? ==> l.value in log && l.value.branchId == branch && l.value.idempotencyKey == key)
            && (l.None? ==> forall i | 0 <= i < |log| :: log[i].branchId != branch || log[i].idempotencyKey != key)
  {
    if log != [] {
      LoggedIs(log[..|log| - 1], branch, key);
      assert log == log[..|log| - 1] + [log[|log| - 1]];
    }
  }

  /** What a commit should do, in terms of the log alone: a repeated (branch, key) returns the
      acknowledgement of the commit that was logged and changes nothing; a new one is
      appended with the next number of its branch. */
  predicate IdempotentAppend(s: Service, r: CommitRequest)
  {
    var before, t, ack := Logged(s.log, r.branchId, r.idempotencyKey), Commit(s, r).0, Commit(s, r).1;
    if before.Some? then t == s && ack == AckOf(before.value)
    else
      var c := DurableCommit(r.branchId, |Branch(s.log, r.branchId)| + 1, r.idempotencyKey, r.payload);
      t.log == s.log + [c] && ack == AckOf(c)
  }

  /** The key of the request is that of a commit logged for another branch. */
  ghost predicate Collides(s: Service, r: CommitRequest)
  {
    exists i :: 0 <= i < |s.log| && KeyOf(s.log[i]) == Key(r.branchId, r.idempotencyKey) &&
        s.log[i].branchId != r.branchId
  }

  /** A commit does what it should if and only if its key is not taken by another branch. */
  lemma CommitIsIdempotentAppend(s: Service, r: CommitRequest)
    requires ServiceOk(s)
    ensures IdempotentAppend(s, r) <==> !Collides(s, r)
  {
    hide Key;
    assert BranchOk(s, r.branchId);
    var key := Key(r.branchId, r.idempotencyKey);
    LoggedIs(s.log, r.branchId, r.idempotencyKey);
    var before := Logged(s.log, r.branchId, r.idempotencyKey);
    if before.Some? {
      var i :| 0 <= i < |s.log| && s.log[i] == before.value;
      assert CommitKept(s, s.log[i]);
      assert KeyOf(s.log[i]) == key;
    } else if key in s.idempotent {
      var i :| 0 <= i < |s.log| && KeyOf(s.log[i]) == key;
      if s.log[i].branchId == r.branchId {
        KeyInjective(s.log[i].branchId, s.log[i].idempotencyKey, r.branchId, r.idempotencyKey);
        assert false;
      }
    } else {
      forall i | 0 <= i < |s.log| ensures KeyOf(s.log[i]) != key { assert CommitKept(s, s.log[i]); }
    }
  }

  function CommitAll(s: Service, rs: seq<CommitRequest>): Service
    decreases |rs|
  {
    if rs == [] then s else CommitAll(Commit(s, rs[0]).0, rs[1..])
  }

  ghost predicate Within(ids: set<string>, rs: seq<CommitRequest>)
  {
    forall i | 0 <= i < |rs| :: rs[i].branchId in ids
  }

  ghost predicate LoggedWithin(ids: set<string>, log: seq<DurableCommit>)
  {
    forall i | 0 <= i < |log| :: log[i].branchId in ids
  }

  lemma {:induction false} CommitAllOk(s: Service, rs: seq<CommitRequest>, ids: set<string>)
    requires ServiceOk(s) && LoggedWithin(ids, s.log) && Within(ids, rs)
    ensures ServiceOk(CommitAll(s, rs)) && LoggedWithin(ids, CommitAll(s, rs).log)
    decreases |rs|
  {
    hide ServiceOk, Key;
    if rs != [] {
      CommitKeepsOk(s, rs[0]);
      CommitAllOk(Commit(s, rs[0]).0, rs[1..], ids);
    }
  }

  ghost predicate Unrelated(ids: set<string>)
  {
    forall a, b | a in ids && b in ids && a != b :: !Related(a, b)
  }

  /** With branch ids from a given set, every commit after every history does what it should
      if and only if no two different ids of the set are related. */
  lemma SafeIffUnrelated(ids: set<string>)
    ensures Unrelated(ids) <==>
            forall rs, r: CommitRequest | Within(ids, rs) && r.branchId in ids ::
                IdempotentAppend(CommitAll(Fresh, rs), r)
  {
    hide Related, IdempotentAppend, Key, Commit, ServiceOk;
    if Unrelated(ids) {
      forall rs, r: CommitRequest | Within(ids, rs) && r.branchId in ids
        ensures IdempotentAppend(CommitAll(Fresh, rs), r)
      {
        FreshIsOk();
        CommitAllOk(Fresh, rs, ids);
        UnrelatedIsSafe(CommitAll(Fresh, rs), r, ids);
      }
    } else {
      var a, b :| a in ids && b in ids && a != b && Related(a, b);
      var first, second := RelatedLosesCommit(a, b, "", "");
      var rs := [first];
      assert Within(ids, rs);
      assert rs[1..] == [] && CommitAll(Fresh, rs) == Commit(Fresh, first).0;
    }
  }

  lemma UnrelatedIsSafe(s: Service, r: CommitRequest, ids: set<string>)
    requires ServiceOk(s) && LoggedWithin(ids, s.log) && r.branchId in ids && Unrelated(ids)
    ensures IdempotentAppend(s, r)
  {
    hide Related, IdempotentAppend, Key, ServiceOk;
    CommitIsIdempotentAppend(s, r);
    forall i | 0 <= i < |s.log| && KeyOf(s.log[i]) == Key(r.branchId, r.idempotencyKey)
      ensures s.log[i].branchId == r.branchId
    {
      KeyInjective(s.log[i].branchId, s.log[i].idempotencyKey, r.branchId, r.idempotencyKey);
    }
  }

  /** Any two different related ids: a request of one takes the other's acknowledgement, and
      its own commit is dropped, although nothing was ever logged for its branch. */
  lemma RelatedLosesCommit(a: string, b: string, payload: string, other: string)
    returns (first: CommitRequest, second: CommitRequest)
    requires a != b && Related(a, b)
    ensures first.branchId == a && second.branchId == b && first.payload == payload && second.payload == other
    ensures var s := Commit(Fresh, first).0;
            && Commit(s, second) == (s, CommitAck(a, 1, first.idempotencyKey))
            && Logged(s.log, second.branchId, second.idempotencyKey).None? && !IdempotentAppend(s, second)
  {
    SharedKeyIffRelated(a, b);
    var k, l :| Key(a, k) == Key(b, l);
    first, second := CommitRequest(a, k, payload), CommitRequest(b, l, other);
  }

  /** For instance "a" and "a" followed by the separator. */
  lemma SeparatorInBranchLosesCommit(payload: string, other: string)
    returns (first: CommitRequest, second: CommitRequest)
    ensures first.branchId == "a" && second.branchId == "a" + [SEPARATOR]
    ensures var s := Commit(Fresh, first).0; Commit(s, second).0 == s && !IdempotentAppend(s, second)
  {
    assert "a" + [SEPARATOR] <= "a" + [SEPARATOR] + [SEPARATOR];
    first, second := RelatedLosesCommit("a", "a" + [SEPARATOR], payload, other);
  }

  // ---------------------------------------------------------------- persistence

  /** A file's content: a whole service, or the torn rest of a write. */
  datatype File = Whole(service: Service) | Torn

  /** `target` is what the path names; `unsynced` is what it named when the directory was
      last made durable, if it was renamed since; the staged file may not have reached the disk. */
  datatype Disk = Disk(target: Option<File>, unsynced: Option<Option<File>>, staged: Option<File>, stagedSynced: bool)

  datatype Pc =
    | Down
    | Idle
    | Staging(request: CommitRequest)   // in memory; nothing written yet
    | Staged(request: CommitRequest)    // staged file written
    | Synced(request: CommitRequest)    // staged file synced
    | Renamed(request: CommitRequest)
    | Done(request: CommitRequest)      // directory synced, or there is none to sync

  /** `hasParent`: the path has a directory part, which is what gets synced. */
  datatype State = State(disk: Disk, mem: Service, ack: CommitAck, pc: Pc, hasParent: bool, acks: seq<CommitAck>)

  datatype Action =
    | Open
    | Call(request: CommitRequest)
    | WriteStaged | SyncStaged | Rename | SyncDirectory | Return
    | Crash(tears: bool, undo: bool)  // what was not synced may be torn or undone

  function NoAck(): CommitAck { CommitAck("", 0, "") }

  function Start(hasParent: bool): State
  {
    State(Disk(None, None, None, false), Fresh, NoAck(), Down, hasParent, [])
  }

  /** What a crash leaves of the disk. */
  function AfterCrash(d: Disk, tears: bool, undo: bool): Disk
  {
    var target := if undo && d.unsynced.Some? then d.unsynced.value else d.target;
    Disk(target, None, if tears && d.staged.Some? && !d.stagedSynced then Some(Torn) else d.staged, true)
  }

  /** What opening reads; `None` is an error. */
  function Load(d: Disk): Option<Service>
  {
    match d.target
    case None => Some(Fresh)
    case Some(Whole(s)) => Some(s)
    case Some(Torn) => None
  }

  /** The rename puts the staged file in place; unsynced content could still tear. */
  function Renaming(d: Disk): Disk
  {
    Disk(if d.staged.Some? && !d.stagedSynced then Some(Torn) else d.staged,
         Some(if d.unsynced.Some? then d.unsynced.value else d.target), None, false)
  }

  function Step(s: State, a: Action): State
  {
    match a
    case Open =>
      if !s.pc.Down? then s else
      (match Load(s.disk) case None => s case Some(m) => s.(mem := m, pc := Idle))
    case Call(r) =>
      if !s.pc.Idle? then s else
      var (t, ack) := Commit(s.mem, r);
      if Key(r.branchId, r.idempotencyKey) in s.mem.idempotent then s.(acks := s.acks + [ack])
      else s.(mem := t, ack := ack, pc := Staging(r))
    case WriteStaged =>
      if !s.pc.Staging? then s
      else s.(disk := s.disk.(staged := Some(Whole(s.mem)), stagedSynced := false), pc := Staged(s.pc.request))
    case SyncStaged =>
      if !s.pc.Staged? then s else s.(disk := s.disk.(stagedSynced := true), pc := Synced(s.pc.request))
    case Rename =>
      if !s.pc.Synced? then s
      else s.(disk := Renaming(s.disk), pc := if s.hasParent then Renamed(s.pc.request) else Done(s.pc.request))
    case SyncDirectory =>
      if !s.pc.Renamed? then s else s.(disk := s.disk.(unsynced := None), pc := Done(s.pc.request))
    case Return =>
      if !s.pc.Done? then s else s.(acks := s.acks + [s.ack], pc := Idle)
    case Crash(tears, undo) =>
      s.(disk := AfterCrash(s.disk, tears, undo), mem := Fresh, pc := Down)
  }

  function Run(s: State, actions: seq<Action>): State
    decreases |actions|
  {
    if actions == [] then s else Run(Step(s, actions[0]), actions[1..])
  }

  // ---------------------------------------------------------------- safety of runs

  ghost predicate FileOk(f: Option<File>)
  {
    f.Some? ==> f.value.Whole? && ServiceOk(f.value.service)
  }

  function ServiceIn(f: Option<File>): Service
  {
    if f.Some? && f.value.Whole? then f.value.service else Fresh
  }

  /** `next` is `was` with the commit of the call in progress, which is new. */
  ghost predicate OneCommitOn(was: Service, r: CommitRequest, next: Service, ack: CommitAck)
  {
    Key(r.branchId, r.idempotencyKey) !in was.idempotent && (next, ack) == Commit(was, r)
  }

  ghost predicate Kept(m: Service, a: CommitAck)
  {
    exists i :: 0 <= i < |m.log| && AckOf(m.log[i]) == a
  }

  /** Every acknowledgement given is in the log. */
  ghost predicate Remembers(m: Service, acks: seq<CommitAck>)
  {
    forall i | 0 <= i < |acks| :: Kept(m, acks[i])
  }

  ghost predicate PcOk(s: State)
  {
    var d, now := s.disk, ServiceIn(s.disk.target);
    && (s.hasParent && !s.pc.Renamed? ==> d.unsynced.None?)
    && match s.pc
       case Down => d.unsynced.None?
       case Idle => s.mem == now
       case Staging(r) => OneCommitOn(now, r, s.mem, s.ack)
       case Staged(r) => OneCommitOn(now, r, s.mem, s.ack) && d.staged == Some(Whole(s.mem))
       case Synced(r) => OneCommitOn(now, r, s.mem, s.ack) && d.staged == Some(Whole(s.mem)) && d.stagedSynced
       case Renamed(r) =>
         s.mem == now && s.hasParent && d.unsynced.Some? && OneCommitOn(ServiceIn(d.unsynced.value), r, s.mem, s.ack)
       case Done(r) => s.mem == now && Kept(s.mem, s.ack)
  }

  ghost predicate Inv(s: State)
  {
    && FileOk(s.disk.target) && (s.disk.unsynced.Some? ==> FileOk(s.disk.unsynced.value)) && PcOk(s)
    && (s.hasParent ==> Remembers(ServiceIn(s.disk.target), s.acks))
    && (s.hasParent && s.disk.unsynced.Some? ==> Remembers(ServiceIn(s.disk.unsynced.value), s.acks))
  }

  lemma NewCommitIsKept(was: Service, r: CommitRequest, next: Service, ack: CommitAck, acks: seq<CommitAck>)
    requires ServiceOk(was) && OneCommitOn(was, r, next, ack)
    ensures ServiceOk(next) && Kept(next, ack) && (Remembers(was, acks) ==> Remembers(next, acks))
  {
    hide Key, ServiceOk;
    CommitKeepsOk(was, r);
    assert AckOf(next.log[|was.log|]) == ack;
    forall i | Remembers(was, acks) && 0 <= i < |acks| ensures Kept(next, acks[i]) {
      assert Kept(was, acks[i]);
      var j :| 0 <= j < |was.log| && AckOf(was.log[j]) == acks[i];
      assert AckOf(next.log[j]) == acks[i];
    }
  }

  lemma RepeatIsKept(m: Service, r: CommitRequest)
    requires ServiceOk(m) && Key(r.branchId, r.idempotencyKey) in m.idempotent
    ensures Kept(m, Commit(m, r).1) && Commit(m, r).0 == m
  {
    hide Key, BranchOk;
    var i :| 0 <= i < |m.log| && KeyOf(m.log[i]) == Key(r.branchId, r.idempotencyKey);
    assert CommitKept(m, m.log[i]);
  }

  lemma RemembersOneMore(m: Service, acks: seq<CommitAck>, a: CommitAck)
    requires Remembers(m, acks) && Kept(m, a)
    ensures Remembers(m, acks + [a])
  {
    hide Kept;
  }

  lemma StepKeepsInv(s: State, a: Action)
    requires Inv(s)
    ensures Inv(Step(s, a))
  {
    hide Key, ServiceOk, Commit, Kept, Remembers;
    FreshIsOk();
    var now := ServiceIn(s.disk.target);
    match a
    case Call(r) =>
      if s.pc.Idle? && Key(r.branchId, r.idempotencyKey) in s.mem.idempotent {
        RepeatIsKept(s.mem, r);
        if s.hasParent { RemembersOneMore(s.mem, s.acks, Commit(s.mem, r).1); }
      }
    case Rename =>
      if s.pc.Synced? { NewCommitIsKept(now, s.pc.request, s.mem, s.ack, s.acks); }
    case SyncDirectory =>
      if s.pc.Renamed? { NewCommitIsKept(ServiceIn(s.disk.unsynced.value), s.pc.request, s.mem, s.ack, s.acks); }
    case Return =>
      if s.pc.Done? && s.hasParent { RemembersOneMore(s.mem, s.acks, s.ack); }
    case _ =>
  }

  lemma {:induction false} RunKeepsInv(s: State, actions: seq<Action>)
    requires Inv(s)
    ensures Inv(Run(s, actions))
    decreases |actions|
  {
    hide Inv, Step;
    if actions != [] {
      StepKeepsInv(s, actions[0]);
      RunKeepsInv(Step(s, actions[0]), actions[1..]);
    }
  }

  /** Any run of opens, commits and crashes between any two file-system steps, where what was
      not synced may be torn or undone: whenever the process is down, opening succeeds with a
      log that numbers each branch 1..n and holds each (branch, key) once; and if the file's
      directory gets synced, that log holds every acknowledged commit. */
  lemma EveryRunReopens(hasParent: bool, actions: seq<Action>)
    ensures var s := Run(Start(hasParent), actions);
            s.pc.Down? ==> Load(s.disk).Some? && ServiceOk(Load(s.disk).value) &&
                           (hasParent ==> Remembers(Load(s.disk).value, s.acks))
  {
    hide ServiceOk, Step;
    FreshIsOk();
    ParentIsFixed(Start(hasParent), actions);
    RunKeepsInv(Start(hasParent), actions);
  }

  lemma {:induction false} ParentIsFixed(s: State, actions: seq<Action>)
    ensures Run(s, actions).hasParent == s.hasParent
    decreases |actions|
  {
    if actions != [] {
      assert Step(s, actions[0]).hasParent == s.hasParent;
      hide Step;
      ParentIsFixed(Step(s, actions[0]), actions[1..]);
    }
  }

  /** A crash in the middle of a call leaves the state before it or the state after it, whole;
      without a directory to sync it may also leave the state that was last made durable. */
  lemma CrashLeavesOldOrNew(s: State, r: CommitRequest, tears: bool, undo: bool)
    requires Inv(s)
    requires s.pc == Staging(r) || s.pc == Staged(r) || s.pc == Synced(r) || s.pc == Renamed(r)
    ensures var was := ServiceIn(if s.pc.Renamed? then s.disk.unsynced.value else s.disk.target);
            var left := Load(AfterCrash(s.disk, tears, undo));
            && s.mem == Commit(was, r).0 && s.ack == Commit(was, r).1
            && (left in {Some(was), Some(s.mem)} ||
                (!s.hasParent && undo && s.disk.unsynced.Some? && left == Some(ServiceIn(s.disk.unsynced.value))))
  {
    hide ServiceOk, Commit, Remembers;
  }

  function LosingRun(r: CommitRequest): seq<Action>
  {
    [Open, Call(r), WriteStaged, SyncStaged, Rename, Return, Crash(false, true)]
  }

  /** Without a directory part nothing syncs the rename: an acknowledged commit can vanish. */
  lemma UnsyncedRenameLosesAck(r: CommitRequest)
    ensures var s := Run(Start(false), LosingRun(r));
            s.pc.Down? && |s.acks| == 1 && Load(s.disk) == Some(Fresh)
  {
    var s0 := Start(false);
    var s1 := Step(s0, Open);
    var s2 := Step(s1, Call(r));
    var s3 := Step(Step(s2, WriteStaged), SyncStaged);
    var s4 := Step(s3, Rename);
    var s5 := Step(s4, Return);
    SevenSteps(s0, Open, Call(r), WriteStaged, SyncStaged, Rename, Return, Crash(false, true));
  }

  /** A new commit that nothing disturbs: acknowledged, in memory and whole on disk; durable
      too if there is a directory to sync. */
  lemma UndisturbedCommit(s: State, r: CommitRequest)
    requires s.pc.Idle? && Key(r.branchId, r.idempotencyKey) !in s.mem.idempotent
    ensures var t := Step(Step(Step(Step(Step(Step(s, Call(r)), WriteStaged), SyncStaged), Rename), SyncDirectory),
                          Return);
            && (t.mem, t.acks) == (Commit(s.mem, r).0, s.acks + [Commit(s.mem, r).1]) && t.pc.Idle?
            && t.disk.target == Some(Whole(t.mem)) && (s.hasParent <==> t.disk.unsynced.None?)
  {
    hide Key, Commit;
  }

  /** Acknowledged commits survive every run, reopening included, if and only if the path has a
      directory part. */
  lemma AcksSurviveIffParent(hasParent: bool)
    ensures hasParent <==>
            forall actions :: var s := Run(Start(hasParent), actions);
              s.pc.Down? ==> Load(s.disk).Some? && Remembers(Load(s.disk).value, s.acks)
  {
    hide Run, Remembers, ServiceOk;
    if hasParent {
      forall actions
        ensures var s := Run(Start(hasParent), actions);
                s.pc.Down? ==> Load(s.disk).Some? && Remembers(Load(s.disk).value, s.acks)
      {
        EveryRunReopens(hasParent, actions);
      }
    } else {
      var r := CommitRequest("", "", "");
      UnsyncedRenameLosesAck(r);
      NothingRemembers(Run(Start(false), LosingRun(r)).acks);
    }
  }

  lemma NothingRemembers(acks: seq<CommitAck>)
    requires acks != []
    ensures !Remembers(Fresh, acks)
  {
    assert !Kept(Fresh, acks[0]);
  }

  lemma SevenSteps(s: State, a: Action, b: Action, c: Action, d: Action, e: Action, f: Action, g: Action)
    ensures Run(s, [a, b, c, d, e, f, g]) == Step(Step(Step(Step(Step(Step(Step(s, a), b), c), d), e), f), g)
  {
    hide Step, Run;
    assert [a, b, c, d, e, f, g] == [a] + ([b] + ([c] + [d, e, f, g]));
    RunStep(s, a, [b] + ([c] + [d, e, f, g]));
    RunStep(Step(s, a), b, [c] + [d, e, f, g]);
    var v := Step(Step(Step(s, a), b), c);
    RunStep(Step(Step(s, a), b), c, [d, e, f, g]);
    assert [d, e, f, g] == [d] + ([e] + ([f] + ([g] + [])));
    RunStep(v, d, [e] + ([f] + ([g] + [])));
    var w := Step(v, d);
    RunStep(w, e, [f] + ([g] + []));
    RunStep(Step(w, e), f, [g] + []);
    RunStep(Step(Step(w, e), f), g, []);
    RunNothing(Step(Step(Step(w, e), f), g));
  }

  lemma RunStep(s: State, a: Action, rest: seq<Action>)
    ensures Run(s, [a] + rest) == Run(Step(s, a), rest)
  {
    hide Step;
    assert ([a] + rest)[1..] == rest;
  }

  lemma RunNothing(s: State)
    ensures Run(s, []) == s
  {
  }
}
