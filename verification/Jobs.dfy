/** The job catalog: leases, retries, and the events that rebuild it
    (crates/tracedb-jobs/src/lib.rs; crates/tracedb-query/src/lib.rs for the calls
    that log events). */
module Jobs {
  import opened Ordering
  import opened Decimal

  datatype JobKind =
    | GenerateEmbedding | RegenerateEmbedding | BuildTextIndex | BuildVectorIndex | CompactSegment
    | VacuumArtifacts | ReindexTable | ValidatePolicy | RefreshSummary | FeatureRefresh | ExportSubject
    | PurgeSubject | BackupDatabase | RestoreVerification | VerifyDatabase

  datatype JobStatus =
    | Queued | Leased | Running | CommittingResult | Succeeded
    | FailedRetryable | FailedPermanent | Canceled | DeadLettered

  datatype TraceJob = TraceJob(
    jobId: string, kind: JobKind, target: string, idempotencyKey: string, leaseOwner: Option<string>,
    attempts: nat, maxAttempts: nat, status: JobStatus, lastError: Option<string>,
    leaseToken: Option<string>, leaseExpiresAtMs: Option<nat>, nextAttemptAfterMs: Option<nat>)

  datatype JobEvent =
    | Enqueued(job: TraceJob)
    | LeasedEvent(jobId: string, workerId: string, leaseToken: string, leaseExpiresAtMs: nat)
    | Heartbeat(jobId: string, leaseToken: string, leaseExpiresAtMs: nat)
    | Completed(jobId: string, leaseToken: string)
    | Failed(jobId: string, failToken: Option<string>, error: string, permanent: bool, nextAttemptAfterMs: nat)

  /** The catalog, by idempotency key. */
  type Catalog = map<string, TraceJob>

  function SaturatingAdd(a: nat, b: nat): nat
  {
    if a + b > U64_MAX then U64_MAX else a + b
  }

  function KindName(kind: JobKind): string
  {
    match kind
    case GenerateEmbedding => "generate_embedding"
    case RegenerateEmbedding => "regenerate_embedding"
    case BuildTextIndex => "build_text_index"
    case BuildVectorIndex => "build_vector_index"
    case CompactSegment => "compact_segment"
    case VacuumArtifacts => "vacuum_artifacts"
    case ReindexTable => "reindex_table"
    case ValidatePolicy => "validate_policy"
    case RefreshSummary => "refresh_summary"
    case FeatureRefresh => "feature_refresh"
    case ExportSubject => "export_subject"
    case PurgeSubject => "purge_subject"
    case BackupDatabase => "backup_database"
    case RestoreVerification => "restore_verification"
    case VerifyDatabase => "verify_database"
  }

  function JobId(kind: JobKind, key: string): string
  {
    "job:" + KindName(kind) + ":" + key
  }

  function LeaseToken(jobId: string, attempt: nat): string
  {
    "lease:" + jobId + ":" + Dec(attempt)
  }

  lemma KindNameHasNoColon(kind: JobKind)
    ensures ':' !in KindName(kind)
  {
    match kind {
      case GenerateEmbedding => EmbeddingNames();
      case RegenerateEmbedding => EmbeddingNames();
      case BuildTextIndex => BuildNames();
      case BuildVectorIndex => BuildNames();
      case CompactSegment => SegmentNames();
      case VacuumArtifacts => SegmentNames();
      case ReindexTable => TableNames();
      case ValidatePolicy => TableNames();
      case RefreshSummary => RefreshNames();
      case FeatureRefresh => RefreshNames();
      case ExportSubject => SubjectNames();
      case PurgeSubject => SubjectNames();
      case BackupDatabase => DatabaseNames();
      case RestoreVerification => DatabaseNames();
      case VerifyDatabase => DatabaseNames();
    }
  }

  lemma EmbeddingNames() ensures ':' !in "generate_embedding" && ':' !in "regenerate_embedding" {}
  lemma BuildNames() ensures ':' !in "build_text_index" && ':' !in "build_vector_index" {}
  lemma SegmentNames() ensures ':' !in "compact_segment" && ':' !in "vacuum_artifacts" {}
  lemma TableNames() ensures ':' !in "reindex_table" && ':' !in "validate_policy" {}
  lemma RefreshNames() ensures ':' !in "refresh_summary" && ':' !in "feature_refresh" {}
  lemma SubjectNames() ensures ':' !in "export_subject" && ':' !in "purge_subject" {}
  lemma DatabaseNames()
    ensures ':' !in "backup_database" && ':' !in "restore_verification" && ':' !in "verify_database" {}

  /** Different jobs have different ids: an id gives back its kind's name and its key. */
  lemma JobIdInjective(k1: JobKind, a: string, k2: JobKind, b: string)
    requires JobId(k1, a) == JobId(k2, b)
    ensures KindName(k1) == KindName(k2) && a == b
  {
    KindNameHasNoColon(k1);
    KindNameHasNoColon(k2);
    hide KindName;
    ColonSplits(KindName(k1), a, KindName(k2), b);
  }

  lemma ColonPlace(m: string, a: string, n: string, b: string)
    requires ':' !in n && "job:" + m + ":" + a == "job:" + n + ":" + b
    ensures |n| <= |m|
  {
    var s, t := "job:" + m + ":" + a, "job:" + n + ":" + b;
    assert s[4 + |m|] == ':';
    assert forall i | 4 <= i < 4 + |n| :: t[i] == n[i - 4];
  }

  lemma ColonSplits(m: string, a: string, n: string, b: string)
    requires ':' !in m && ':' !in n && "job:" + m + ":" + a == "job:" + n + ":" + b
    ensures m == n && a == b
  {
    var s, t := "job:" + m + ":" + a, "job:" + n + ":" + b;
    ColonPlace(m, a, n, b);
    ColonPlace(n, b, m, a);
    assert m == s[4..4 + |m|] && n == t[4..4 + |n|];
    assert a == s[5 + |m|..] && b == t[5 + |n|..];
  }

  /** Different grants have different tokens. */
  lemma LeaseTokenInjective(id1: string, n1: nat, id2: string, n2: nat)
    requires LeaseToken(id1, n1) == LeaseToken(id2, n2)
    ensures id1 == id2 && n1 == n2
  {
    NumberedNameInjective("lease:" + id1, n1, "lease:" + id2, n2, ':');
    assert id1 == ("lease:" + id1)[6..] && id2 == ("lease:" + id2)[6..];
  }

  // ---------------------------------------------------------------- catalog operations

  function NewJob(kind: JobKind, target: string, key: string): TraceJob
  {
    TraceJob(JobId(kind, key), kind, target, key, None, 0, 3, Queued, None, None, None, None)
  }

  /** Enqueueing a key that exists gives back the job already there. */
  function Enqueue(jobs: Catalog, kind: JobKind, target: string, key: string): (Catalog, TraceJob)
  {
    if key in jobs then (jobs, jobs[key]) else (jobs[key := NewJob(kind, target, key)], NewJob(kind, target, key))
  }

  function Max1(n: nat): nat { if n == 0 then 1 else n }

  function LeaseAt(job: TraceJob, worker: string, now: nat, leaseMs: nat): TraceJob
  {
    job.(leaseToken := Some(LeaseToken(job.jobId, job.attempts + 1)),
         leaseExpiresAtMs := Some(SaturatingAdd(now, Max1(leaseMs))),
         leaseOwner := Some(worker), attempts := job.attempts + 1, status := Leased, nextAttemptAfterMs := None)
  }

  predicate Leasable(job: TraceJob, now: nat)
  {
    match job.status
    case Queued => true
    case FailedRetryable => job.nextAttemptAfterMs.Some? ==> job.nextAttemptAfterMs.value <= now
    case Leased => job.leaseExpiresAtMs.Some? && job.leaseExpiresAtMs.value <= now
    case Running => job.leaseExpiresAtMs.Some? && job.leaseExpiresAtMs.value <= now
    case _ => false
  }

  function LeasableKeys(jobs: Catalog, kind: JobKind, now: nat): set<string>
  {
    set k | k in jobs && jobs[k].kind == kind && Leasable(jobs[k], now)
  }

  /** The first leasable job of the kind, in key order, is leased. */
  function LeaseNext(jobs: Catalog, worker: string, kind: JobKind, now: nat, leaseMs: nat): (Catalog, Option<TraceJob>)
  {
    match First(LeasableKeys(jobs, kind, now))
    case None => (jobs, None)
    case Some(k) => var job := LeaseAt(jobs[k], worker, now, leaseMs); (jobs[k := job], Some(job))
  }

  function KeysOfJobId(jobs: Catalog, jobId: string): set<string>
  {
    set k | k in jobs && jobs[k].jobId == jobId
  }

  /** The job a call addresses, if the id is known and the token, when given, is its
      current one. */
  function KeyForToken(jobs: Catalog, jobId: string, token: Option<string>): (r: Option<string>)
    ensures r.Some? ==> r.value in jobs
  {
    match First(KeysOfJobId(jobs, jobId))
    case None => None
    case Some(k) => if token.Some? && jobs[k].leaseToken != token then None else Some(k)
  }

  function WithExpiry(job: TraceJob, expires: nat): TraceJob
  {
    job.(leaseExpiresAtMs := Some(expires))
  }

  function Done(job: TraceJob): TraceJob
  {
    job.(status := Succeeded, leaseExpiresAtMs := None, nextAttemptAfterMs := None)
  }

  function Broken(job: TraceJob, error: string, permanent: bool, next: nat): TraceJob
  {
    job.(lastError := Some(error), leaseExpiresAtMs := None, nextAttemptAfterMs := Some(next),
         status := if permanent then FailedPermanent
                   else if job.attempts >= job.maxAttempts then DeadLettered else FailedRetryable)
  }

  /** `None` is the error result: unknown job or stale token. */
  function ApplyEvent(jobs: Catalog, e: JobEvent): Option<Catalog>
  {
    match e
    case Enqueued(job) =>
      Some(if job.idempotencyKey in jobs then jobs else jobs[job.idempotencyKey := job])
    case LeasedEvent(id, worker, token, expires) =>
      (match First(KeysOfJobId(jobs, id))
       case None => None
       case Some(k) =>
         Some(jobs[k := jobs[k].(leaseOwner := Some(worker), leaseToken := Some(token),
                                 leaseExpiresAtMs := Some(expires),
                                 nextAttemptAfterMs := None, attempts := jobs[k].attempts + 1, status := Leased)]))
    case Heartbeat(id, token, expires) =>
      (match KeyForToken(jobs, id, Some(token))
       case None => None
       case Some(k) => Some(jobs[k := WithExpiry(jobs[k], expires)]))
    case Completed(id, token) =>
      (match KeyForToken(jobs, id, Some(token)) case None => None case Some(k) => Some(jobs[k := Done(jobs[k])]))
    case Failed(id, token, error, permanent, next) =>
      (match KeyForToken(jobs, id, token)
       case None => None
       case Some(k) => Some(jobs[k := Broken(jobs[k], error, permanent, next)]))
  }

  // ---------------------------------------------------------------- logged calls

  datatype Op =
    | EnqueueJob(kind: JobKind, target: string, key: string)
    | LeaseJob(worker: string, leaseKind: JobKind, now: nat, leaseMs: nat)
    | HeartbeatJob(jobId: string, token: string, beatAt: nat, beatMs: nat)
    | CompleteJob(jobId: string, token: string)
    | FailJob(jobId: string, failToken: Option<string>, error: string, permanent: bool, failedAt: nat)

  /** What a call plans: the next catalog and the event to log; `None` if the call is
      rejected or finds nothing to lease, and then the catalog stays as it is. */
  function Plan(jobs: Catalog, op: Op): Option<(Catalog, JobEvent)>
  {
    match op
    case EnqueueJob(kind, target, key) =>
      var (next, job) := Enqueue(jobs, kind, target, key);
      Some((next, Enqueued(job)))
    case LeaseJob(worker, kind, now, leaseMs) =>
      var (next, job) := LeaseNext(jobs, worker, kind, now, leaseMs);
      if job.None? then None else
      Some((next, LeasedEvent(job.value.jobId, worker,
                              if job.value.leaseToken.Some? then job.value.leaseToken.value else "",
                              if job.value.leaseExpiresAtMs.Some? then job.value.leaseExpiresAtMs.value
                              else SaturatingAdd(now, leaseMs))))
    case HeartbeatJob(id, token, now, leaseMs) =>
      var expires := SaturatingAdd(now, Max1(leaseMs));
      (match KeyForToken(jobs, id, Some(token))
       case None => None
       case Some(k) => Some((jobs[k := WithExpiry(jobs[k], expires)], Heartbeat(id, token, expires))))
    case CompleteJob(id, token) =>
      (match KeyForToken(jobs, id, Some(token))
       case None => None
       case Some(k) => Some((jobs[k := Done(jobs[k])], Completed(id, token))))
    case FailJob(id, token, error, permanent, now) =>
      (match KeyForToken(jobs, id, token)
       case None => None
       case Some(k) => Some((jobs[k := Broken(jobs[k], error, permanent, now)],
                             Failed(id, token, error, permanent, now))))
  }

  function After(jobs: Catalog, op: Op): Catalog
  {
    var p := Plan(jobs, op); if p.Some? then p.value.0 else jobs
  }

  function RunOps(jobs: Catalog, ops: seq<Op>): Catalog
    decreases |ops|
  {
    if ops == [] then jobs else RunOps(After(jobs, ops[0]), ops[1..])
  }

  /** The events logged by a run. */
  function EventsOf(jobs: Catalog, ops: seq<Op>): seq<JobEvent>
    decreases |ops|
  {
    if ops == [] then [] else
    var p := Plan(jobs, ops[0]);
    (if p.Some? then [p.value.1] else []) + EventsOf(After(jobs, ops[0]), ops[1..])
  }

  function Replay(jobs: Catalog, events: seq<JobEvent>): Option<Catalog>
    decreases |events|
  {
    if events == [] then Some(jobs) else
    var next := ApplyEvent(jobs, events[0]);
    if next.None? then None else Replay(next.value, events[1..])
  }

  // ---------------------------------------------------------------- reachable catalogs

  /** What holds of every job of a reachable catalog under its key. */
  predicate JobOk(key: string, job: TraceJob)
  {
    && job.idempotencyKey == key && job.jobId == JobId(job.kind, key)
    && job.status in {Queued, Leased, Succeeded, FailedRetryable, FailedPermanent, DeadLettered}
    && job.leaseToken == (if job.attempts == 0 then None else Some(LeaseToken(job.jobId, job.attempts)))
    && (job.status == Queued ==> job.attempts == 0)
    && (job.status == Leased ==> job.attempts >= 1 && job.leaseExpiresAtMs.Some?)
    && (job.status == FailedRetryable ==> job.attempts < job.maxAttempts)
    && (job.status == DeadLettered ==> job.attempts >= job.maxAttempts)
    && job.maxAttempts == 3
  }

  predicate CatalogOk(jobs: Catalog)
  {
    forall k | k in jobs :: JobOk(k, jobs[k])
  }

  lemma {:induction false} OneKeyPerJobId(jobs: Catalog, k: string)
    requires CatalogOk(jobs) && k in jobs
    ensures KeysOfJobId(jobs, jobs[k].jobId) == {k}
  {
    hide JobId, LeaseToken;
    forall j | j in jobs && jobs[j].jobId == jobs[k].jobId ensures j == k {
      JobIdInjective(jobs[j].kind, j, jobs[k].kind, k);
    }
  }

  lemma PlanKeepsOk(jobs: Catalog, op: Op)
    requires CatalogOk(jobs)
    ensures CatalogOk(After(jobs, op))
  {
    hide JobId, LeaseToken, First, KeyForToken;
  }

  /** Applying the event a call logs does to the catalog what the call did. */
  lemma EventDoesWhatCallDid(jobs: Catalog, op: Op)
    requires CatalogOk(jobs) && Plan(jobs, op).Some?
    ensures ApplyEvent(jobs, Plan(jobs, op).value.1) == Some(Plan(jobs, op).value.0)
  {
    hide JobId, LeaseToken;
    if op.LeaseJob? {
      var k := First(LeasableKeys(jobs, op.leaseKind, op.now)).value;
      OneKeyPerJobId(jobs, k);
    }
  }

  /** Replaying the events of any run, from any reachable catalog, never errs and gives
      the live catalog, field by field. */
  lemma {:induction false} ReplayRebuilds(jobs: Catalog, ops: seq<Op>)
    requires CatalogOk(jobs)
    ensures CatalogOk(RunOps(jobs, ops))
    ensures Replay(jobs, EventsOf(jobs, ops)) == Some(RunOps(jobs, ops))
    decreases |ops|
  {
    hide CatalogOk, Plan, ApplyEvent;
    if ops != [] {
      PlanKeepsOk(jobs, ops[0]);
      ReplayRebuilds(After(jobs, ops[0]), ops[1..]);
      if Plan(jobs, ops[0]).Some? {
        EventDoesWhatCallDid(jobs, ops[0]);
        var e, rest := Plan(jobs, ops[0]).value.1, EventsOf(After(jobs, ops[0]), ops[1..]);
        assert ([e] + rest)[1..] == rest;
      } else {
        assert [] + EventsOf(After(jobs, ops[0]), ops[1..]) == EventsOf(After(jobs, ops[0]), ops[1..]);
      }
    }
  }

  /** From an empty catalog: every run can be rebuilt from its events. */
  lemma ReplayFromEmpty(ops: seq<Op>)
    ensures Replay(map[], EventsOf(map[], ops)) == Some(RunOps(map[], ops))
    ensures CatalogOk(RunOps(map[], ops))
  {
    ReplayRebuilds(map[], ops);
  }

  // ---------------------------------------------------------------- leases

  /** What a lease grant means: the job was queued, or failed with attempts to spare, or
      held a lease that has run out; a grant beyond the maximum is of the last kind. */
  lemma GrantReason(jobs: Catalog, worker: string, kind: JobKind, now: nat, leaseMs: nat)
    requires CatalogOk(jobs) && LeaseNext(jobs, worker, kind, now, leaseMs).1.Some?
    ensures var job := LeaseNext(jobs, worker, kind, now, leaseMs).1.value;
            var before := jobs[job.idempotencyKey];
            && job.attempts == before.attempts + 1
            && before.status in {Queued, FailedRetryable, Leased}
            && (before.status == Leased ==> before.leaseExpiresAtMs.value <= now)
            && (job.attempts > job.maxAttempts ==> before.status == Leased)
            && before.leaseToken != job.leaseToken
            && jobs[job.idempotencyKey := job] == LeaseNext(jobs, worker, kind, now, leaseMs).0
  {
    hide JobId, LeaseToken;
    var k := First(LeasableKeys(jobs, kind, now)).value;
    if jobs[k].attempts > 0 &&
       LeaseToken(jobs[k].jobId, jobs[k].attempts) == LeaseToken(jobs[k].jobId, jobs[k].attempts + 1) {
      LeaseTokenInjective(jobs[k].jobId, jobs[k].attempts, jobs[k].jobId, jobs[k].attempts + 1);
    }
  }

  /** A call with the token of an earlier grant is rejected, and so changes nothing. */
  lemma StaleTokenRejected(jobs: Catalog, k: string, n: nat, beatAt: nat, beatMs: nat, error: string, permanent: bool,
                           at: nat)
    requires CatalogOk(jobs) && k in jobs && n < jobs[k].attempts
    ensures var id, token := jobs[k].jobId, LeaseToken(jobs[k].jobId, n);
            && Plan(jobs, HeartbeatJob(id, token, beatAt, beatMs)).None?
            && Plan(jobs, CompleteJob(id, token)).None?
            && Plan(jobs, FailJob(id, Some(token), error, permanent, at)).None?
  {
    hide JobId, LeaseToken;
    OneKeyPerJobId(jobs, k);
    if LeaseToken(jobs[k].jobId, n) == LeaseToken(jobs[k].jobId, jobs[k].attempts) {
      LeaseTokenInjective(jobs[k].jobId, n, jobs[k].jobId, jobs[k].attempts);
    }
  }

  /** Attempts never go down and jobs never leave the catalog. */
  predicate Later(a: Catalog, b: Catalog)
  {
    forall k | k in a :: k in b && a[k].jobId == b[k].jobId && a[k].attempts <= b[k].attempts
  }

  lemma StepIsLater(jobs: Catalog, op: Op)
    requires CatalogOk(jobs)
    ensures Later(jobs, After(jobs, op))
  {
    hide JobId, LeaseToken, First, KeyForToken;
  }

  lemma {:induction false} RunIsLater(jobs: Catalog, ops: seq<Op>)
    requires CatalogOk(jobs)
    ensures Later(jobs, RunOps(jobs, ops))
    decreases |ops|
  {
    hide CatalogOk, After;
    if ops != [] {
      PlanKeepsOk(jobs, ops[0]);
      StepIsLater(jobs, ops[0]);
      RunIsLater(After(jobs, ops[0]), ops[1..]);
    }
  }

  /** After any further run, the token of a grant that has been superseded stays dead. */
  lemma SupersededForGood(jobs: Catalog, k: string, n: nat, ops: seq<Op>, error: string, permanent: bool, at: nat)
    requires CatalogOk(jobs) && k in jobs && n < jobs[k].attempts
    ensures var id, token, end := jobs[k].jobId, LeaseToken(jobs[k].jobId, n), RunOps(jobs, ops);
            && Plan(end, HeartbeatJob(id, token, at, at)).None? && Plan(end, CompleteJob(id, token)).None?
            && Plan(end, FailJob(id, Some(token), error, permanent, at)).None?
  {
    hide CatalogOk, LeaseToken, JobId, Plan;
    ReplayRebuilds(jobs, ops);
    RunIsLater(jobs, ops);
    StaleTokenRejected(RunOps(jobs, ops), k, n, at, at, error, permanent, at);
  }

  function GrantedTokens(events: seq<JobEvent>): seq<string>
  {
    if events == [] then []
    else (if events[0].LeasedEvent? then [events[0].leaseToken] else []) + GrantedTokens(events[1..])
  }

  /** `t` is the token of a grant still to come. */
  predicate FutureToken(jobs: Catalog, t: string)
  {
    forall k, n: nat | k in jobs && n <= jobs[k].attempts :: t != LeaseToken(jobs[k].jobId, n)
  }

  lemma TokensStayInFuture(a: Catalog, b: Catalog, t: string)
    requires Later(a, b) && FutureToken(b, t)
    ensures FutureToken(a, t)
  {
    hide LeaseToken;
  }

  lemma GrantIsFuture(jobs: Catalog, op: Op)
    requires CatalogOk(jobs) && Plan(jobs, op).Some? && Plan(jobs, op).value.1.LeasedEvent?
    ensures var t := Plan(jobs, op).value.1.leaseToken;
            FutureToken(jobs, t) && !FutureToken(After(jobs, op), t)
  {
    hide JobId, LeaseToken;
    var key := First(LeasableKeys(jobs, op.leaseKind, op.now)).value;
    var id, m := jobs[key].jobId, jobs[key].attempts + 1;
    assert Plan(jobs, op).value.1.leaseToken == LeaseToken(id, m);
    assert key in KeysOfJobId(jobs, id);
    forall k, n: nat | k in jobs && n <= jobs[k].attempts ensures LeaseToken(id, m) != LeaseToken(jobs[k].jobId, n) {
      if LeaseToken(id, m) == LeaseToken(jobs[k].jobId, n) {
        LeaseTokenInjective(id, m, jobs[k].jobId, n);
        OneKeyPerJobId(jobs, k);
      }
    }
    assert After(jobs, op)[key].attempts == m && After(jobs, op)[key].jobId == id;
  }

  /** Over every run no lease token is granted twice, to any job. */
  lemma {:induction false} TokensNeverRepeat(jobs: Catalog, ops: seq<Op>)
    requires CatalogOk(jobs)
    ensures var tokens := GrantedTokens(EventsOf(jobs, ops));
            && NoDuplicates(tokens) && forall t | t in tokens :: FutureToken(jobs, t)
    decreases |ops|
  {
    hide CatalogOk, Plan, Later, FutureToken;
    if ops != [] {
      PlanKeepsOk(jobs, ops[0]);
      StepIsLater(jobs, ops[0]);
      var next, p := After(jobs, ops[0]), Plan(jobs, ops[0]);
      TokensNeverRepeat(next, ops[1..]);
      var rest := GrantedTokens(EventsOf(next, ops[1..]));
      forall t | t in rest ensures FutureToken(jobs, t) { TokensStayInFuture(jobs, next, t); }
      if p.Some? {
        assert ([p.value.1] + EventsOf(next, ops[1..]))[1..] == EventsOf(next, ops[1..]);
        if p.value.1.LeasedEvent? { GrantIsFuture(jobs, ops[0]); }
      } else {
        assert [] + EventsOf(next, ops[1..]) == EventsOf(next, ops[1..]);
      }
    }
  }

  /** The event leases or fails the job. */
  predicate LeasesOrFails(e: JobEvent, jobId: string)
  {
    (e.LeasedEvent? && e.jobId == jobId) || (e.Failed? && e.jobId == jobId)
  }

  /** The job still holds the lease it held in `jobs`, or has been completed. */
  predicate StillHeld(jobs: Catalog, k: string, end: Catalog)
    requires k in jobs
  {
    k in end && end[k].jobId == jobs[k].jobId && end[k].attempts == jobs[k].attempts &&
        end[k].status in {Leased, Succeeded}
  }

  lemma StepStillHeld(jobs: Catalog, k: string, op: Op)
    requires CatalogOk(jobs) && k in jobs && jobs[k].status in {Leased, Succeeded}
    requires Plan(jobs, op).Some? ==> !LeasesOrFails(Plan(jobs, op).value.1, jobs[k].jobId)
    ensures StillHeld(jobs, k, After(jobs, op))
  {
    hide JobId, LeaseToken;
    OneKeyPerJobId(jobs, k);
  }

  lemma {:induction false} RunStillHeld(jobs: Catalog, k: string, ops: seq<Op>)
    requires CatalogOk(jobs) && k in jobs && jobs[k].status in {Leased, Succeeded}
    requires forall e | e in EventsOf(jobs, ops) :: !LeasesOrFails(e, jobs[k].jobId)
    ensures StillHeld(jobs, k, RunOps(jobs, ops))
    decreases |ops|
  {
    hide CatalogOk, Plan, LeasesOrFails;
    if ops != [] {
      var p, next := Plan(jobs, ops[0]), After(jobs, ops[0]);
      var rest := EventsOf(next, ops[1..]);
      if p.Some? { assert p.value.1 in [p.value.1] + rest; }
      assert forall e | e in rest :: e in EventsOf(jobs, ops);
      PlanKeepsOk(jobs, ops[0]);
      StepStillHeld(jobs, k, ops[0]);
      RunStillHeld(next, k, ops[1..]);
    }
  }

  /** Between two successive leases of a job, either a failure was logged for it, or the
      expiry last set on the first lease is at or before the time of the second. */
  lemma SuccessiveLeases(jobs: Catalog, k: string, ops: seq<Op>, worker: string, kind: JobKind, now: nat, leaseMs: nat)
    requires CatalogOk(jobs) && k in jobs && jobs[k].status == Leased
    requires forall e | e in EventsOf(jobs, ops) :: !LeasesOrFails(e, jobs[k].jobId)
    requires var granted := LeaseNext(RunOps(jobs, ops), worker, kind, now, leaseMs).1;
             granted.Some? && granted.value.jobId == jobs[k].jobId
    ensures var end := RunOps(jobs, ops);
            k in end && end[k].leaseExpiresAtMs.Some? && end[k].leaseExpiresAtMs.value <= now
  {
    hide JobId, LeaseToken, LeasesOrFails, Plan;
    RunStillHeld(jobs, k, ops);
    ReplayRebuilds(jobs, ops);
    var end := RunOps(jobs, ops);
    OneKeyPerJobId(end, k);
    var g := First(LeasableKeys(end, kind, now)).value;
    assert g in KeysOfJobId(end, end[k].jobId);
  }

  // ---------------------------------------------------------------- the catalog object

  class JobCatalog {
    var jobs: Catalog

    constructor ()
      ensures jobs == map[]
    {
      jobs := map[];
    }

    method EnqueueJob(kind: JobKind, target: string, key: string) returns (job: TraceJob)
      modifies this
      ensures (jobs, job) == Enqueue(old(jobs), kind, target, key)
    {
      if key !in jobs { jobs := jobs[key := NewJob(kind, target, key)]; }
      job := jobs[key];
    }

    method LeaseNextAt(worker: string, kind: JobKind, now: nat, leaseMs: nat) returns (leased: Option<TraceJob>)
      modifies this
      ensures (jobs, leased) == LeaseNext(old(jobs), worker, kind, now, leaseMs)
    {
      hide LeaseAt, Leasable, InOrder, Less, TotalOn;
      var keys := InOrder(jobs.Keys);
      InOrderAscends(jobs.Keys);
      var i := 0;
      while i < |keys|
        invariant 0 <= i <= |keys| && jobs == old(jobs)
        invariant forall j | 0 <= j < i :: keys[j] !in LeasableKeys(jobs, kind, now)
      {
        assert keys[i] in Elements(keys);
        var job := jobs[keys[i]];
        if job.kind == kind && Leasable(job, now) {
          FirstHitIsFirst(keys, i, LeasableKeys(jobs, kind, now));
          var next := LeaseAt(job, worker, now, leaseMs);
          jobs := jobs[keys[i] := next];
          return Some(next);
        }
        i := i + 1;
      }
      NoHits(keys, LeasableKeys(jobs, kind, now));
      return None;
    }

    method FindByToken(jobId: string, token: Option<string>) returns (key: Option<string>)
      ensures key == KeyForToken(jobs, jobId, token)
    {
      hide InOrder, Less, TotalOn;
      var keys := InOrder(jobs.Keys);
      InOrderAscends(jobs.Keys);
      var i := 0;
      while i < |keys|
        invariant 0 <= i <= |keys|
        invariant forall j | 0 <= j < i :: keys[j] !in KeysOfJobId(jobs, jobId)
      {
        assert keys[i] in Elements(keys);
        if jobs[keys[i]].jobId == jobId {
          FirstHitIsFirst(keys, i, KeysOfJobId(jobs, jobId));
          if token.Some? && jobs[keys[i]].leaseToken != token { return None; }
          return Some(keys[i]);
        }
        i := i + 1;
      }
      NoHits(keys, KeysOfJobId(jobs, jobId));
      return None;
    }

    method HeartbeatJob(jobId: string, token: string, now: nat, leaseMs: nat) returns (job: Option<TraceJob>)
      modifies this
      ensures jobs == After(old(jobs), Op.HeartbeatJob(jobId, token, now, leaseMs))
      ensures match KeyForToken(old(jobs), jobId, Some(token))
              case None => job.None?
              case Some(k) => job == Some(jobs[k])
    {
      var key := FindByToken(jobId, Some(token));
      if key.None? { return None; }
      jobs := jobs[key.value := WithExpiry(jobs[key.value], SaturatingAdd(now, Max1(leaseMs)))];
      return Some(jobs[key.value]);
    }

    method Complete(jobId: string, token: Option<string>) returns (job: Option<TraceJob>)
      modifies this
      ensures token.Some? ==> jobs == After(old(jobs), CompleteJob(jobId, token.value))
      ensures match KeyForToken(old(jobs), jobId, token)
              case None => job.None? && jobs == old(jobs)
              case Some(k) => job == Some(Done(old(jobs)[k])) && jobs == old(jobs)[k := Done(old(jobs)[k])]
    {
      var key := FindByToken(jobId, token);
      if key.None? { return None; }
      jobs := jobs[key.value := Done(jobs[key.value])];
      return Some(jobs[key.value]);
    }

    method Fail(jobId: string, token: Option<string>, error: string, permanent: bool, next: nat)
      returns (job: Option<TraceJob>)
      modifies this
      ensures jobs == After(old(jobs), FailJob(jobId, token, error, permanent, next))
      ensures match KeyForToken(old(jobs), jobId, token)
              case None => job.None?
              case Some(k) => job == Some(jobs[k])
    {
      var key := FindByToken(jobId, token);
      if key.None? { return None; }
      jobs := jobs[key.value := Broken(jobs[key.value], error, permanent, next)];
      return Some(jobs[key.value]);
    }
  }

  lemma NoHits(keys: seq<string>, hits: set<string>)
    requires hits <= Elements(keys) && forall j | 0 <= j < |keys| :: keys[j] !in hits
    ensures hits == {}
  {
    assert forall k | k in hits :: k in Elements(keys);
  }
}
