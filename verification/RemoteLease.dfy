/** The writer lease on one object of the remote store: clients that interleave head, get
    and conditional put or delete (crates/tracedb-remote-storage/src/lib.rs). */
module RemoteLease {
  import opened Ordering
  import opened ObjectStore

  datatype LeaseRecord = LeaseRecord(holder: string, token: nat, expires: nat)

  function TtlSeconds(ttlMs: nat): nat
  {
    (if ttlMs + 999 > U64_MAX then U64_MAX else ttlMs + 999) / 1000
  }

  /** A call in progress, by what it has read so far. */
  datatype Client =
    | Idle
    | AcquireHeaded(holder: string, ttlMs: nat, head: Option<string>)
    | AcquireTimed(holder: string, ttlMs: nat, etag: string, now: nat)
    | AcquireReady(condition: PutCondition, next: LeaseRecord, found: Option<LeaseRecord>, now: nat)
    | RefreshHeaded(lease: LeaseRecord, ttlMs: nat, etag: string)
    | RefreshChecked(lease: LeaseRecord, ttlMs: nat, etag: string)
    | RefreshReady(etag: string, next: LeaseRecord)
    | ReleaseHeaded(lease: LeaseRecord, etag: string)
    | ReleaseReady(lease: LeaseRecord, etag: string)

  datatype System = System(store: Store<LeaseRecord>, clock: nat, clients: map<nat, Client>)

  datatype Action =
    | Tick(seconds: nat)
    | Acquire(c: nat, holder: string, ttlMs: nat)     // head
    | Refresh(c: nat, lease: LeaseRecord, ttlMs: nat) // head
    | Release(c: nat, lease: LeaseRecord)             // head
    | ReadClock(c: nat)
    | Load(c: nat)                                    // get
    | Commit(c: nat, tag: string)                     // conditional put or delete
    | Abandon(c: nat)                                 // the client fails or stops

  /** What a committed put or delete did. */
  datatype Effect =
    | Acquired(lease: LeaseRecord)
    | Refreshed(lease: LeaseRecord)
    | Released(lease: LeaseRecord)

  function HeadTag(s: System): Option<string>
  {
    if s.store.item.Some? then Some(s.store.item.value.etag) else None
  }

  function Phase(s: System, c: nat): Client
  {
    if c in s.clients then s.clients[c] else Idle
  }

  function Move(s: System, c: nat, p: Client): System
  {
    s.(clients := s.clients[c := p])
  }

  function AfterAcquireLoad(p: Client, current: LeaseRecord): Client
    requires p.AcquireTimed?
  {
    if current.expires > p.now && current.holder != p.holder then Idle  // held by another
    else AcquireReady(IfMatchEtag(p.etag), LeaseRecord(p.holder, current.token + 1, p.now + TtlSeconds(p.ttlMs)),
                      Some(current), p.now)
  }

  predicate SameGrant(a: LeaseRecord, b: LeaseRecord)
  {
    a.holder == b.holder && a.token == b.token
  }

  /** One step, and the effect it commits, if any. Steps that do not apply do nothing. */
  function Step(s: System, a: Action): (System, Option<Effect>)
  {
    match a
    case Tick(seconds) => (s.(clock := s.clock + seconds), None)
    case Acquire(c, holder, ttl) =>
      (if Phase(s, c).Idle? then Move(s, c, AcquireHeaded(holder, ttl, HeadTag(s))) else s, None)
    case Refresh(c, lease, ttl) =>
      (if Phase(s, c).Idle? && HeadTag(s).Some? then Move(s, c, RefreshHeaded(lease, ttl, HeadTag(s).value))
       else s, None)
    case Release(c, lease) =>
      (if Phase(s, c).Idle? && HeadTag(s).Some? then Move(s, c, ReleaseHeaded(lease, HeadTag(s).value)) else s, None)
    case ReadClock(c) =>
      (match Phase(s, c)
       case AcquireHeaded(holder, ttl, None) =>
         Move(s, c, AcquireReady(IfAbsent, LeaseRecord(holder, 1, s.clock + TtlSeconds(ttl)), None, s.clock))
       case AcquireHeaded(holder, ttl, Some(etag)) => Move(s, c, AcquireTimed(holder, ttl, etag, s.clock))
       case RefreshChecked(lease, ttl, etag) =>
         Move(s, c, RefreshReady(etag, lease.(expires := s.clock + TtlSeconds(ttl))))
       case _ => s, None)
    case Load(c) =>
      var found := Current(s.store);
      (match Phase(s, c)
       case AcquireTimed(_, _, _, _) =>
         Move(s, c, if found.None? then Idle else AfterAcquireLoad(Phase(s, c), found.value))
       case RefreshHeaded(lease, ttl, etag) =>
         Move(s, c, if found.Some? && SameGrant(found.value, lease) then RefreshChecked(lease, ttl, etag) else Idle)
       case ReleaseHeaded(lease, etag) =>
         Move(s, c, if found.Some? && SameGrant(found.value, lease) then ReleaseReady(lease, etag) else Idle)
       case _ => s, None)
    case Commit(c, tag) =>
      if tag in s.store.used then (s, None) else
      (match Phase(s, c)
       case AcquireReady(condition, next, _, _) =>
         if Allows(s.store, condition) then (Move(s, c, Idle).(store := Put(s.store, next, tag)), Some(Acquired(next)))
         else (Move(s, c, Idle), None)
       case RefreshReady(etag, next) =>
         if Allows(s.store, IfMatchEtag(etag)) then (Move(s, c, Idle).(store := Put(s.store, next, tag)),
                                                     Some(Refreshed(next)))
         else (Move(s, c, Idle), None)
       case ReleaseReady(lease, etag) =>
         if Allows(s.store, IfMatchEtag(etag)) then (Move(s, c, Idle).(store := Delete(s.store)), Some(Released(lease)))
         else (Move(s, c, Idle), None)
       case _ => (s, None))
    case Abandon(c) => (Move(s, c, Idle), None)
  }

  // ---------------------------------------------------------------- the atomic lease

  /** The lease as one would want it: check and change in one step at time `clock`. */
  predicate Legal(before: Option<LeaseRecord>, clock: nat, e: Effect, after: Option<LeaseRecord>)
  {
    match e
    case Acquired(lease) =>
      && after == Some(lease)
      && (before.None? ==> lease.token == 1)
      && (before.Some? ==>
            && lease.token == before.value.token + 1
            && (before.value.expires <= clock || before.value.holder == lease.holder))
    case Refreshed(lease) =>
      after == Some(lease) && before.Some? && SameGrant(before.value, lease)
    case Released(lease) =>
      after == None && before.Some? && SameGrant(before.value, lease)
  }

  /** What a waiting client relies on. */
  ghost predicate ClientOk(store: Store<LeaseRecord>, clock: nat, p: Client)
  {
    match p
    case Idle => true
    case AcquireHeaded(_, _, head) => head.Some? ==> head.value in store.used
    case AcquireTimed(_, _, etag, now) => etag in store.used && now <= clock
    case AcquireReady(IfAbsent, next, found, now) => next.token == 1 && now <= clock
    case AcquireReady(IfMatchEtag(etag), next, found, now) =>
      && now <= clock && found.Some? && Observed(store, etag, found.value) && next.token == found.value.token + 1
      && (found.value.expires <= now || found.value.holder == next.holder)
    case RefreshHeaded(_, _, etag) => etag in store.used
    case RefreshChecked(lease, _, etag) => HasGrant(store, etag, lease)
    case RefreshReady(etag, next) => HasGrant(store, etag, next)
    case ReleaseHeaded(_, etag) => etag in store.used
    case ReleaseReady(lease, etag) => HasGrant(store, etag, lease)
  }

  /** As long as the object has this tag, it is this grant. */
  ghost predicate HasGrant(store: Store<LeaseRecord>, etag: string, lease: LeaseRecord)
  {
    etag in store.used &&
    (store.item.Some? && store.item.value.etag == etag ==> SameGrant(store.item.value.value, lease))
  }

  ghost predicate Inv(s: System)
  {
    StoreOk(s.store) && forall c | c in s.clients :: ClientOk(s.store, s.clock, s.clients[c])
  }

  /** Other clients' readings survive a write under a fresh tag, a delete, and time. */
  lemma ClientStaysOk(store: Store<LeaseRecord>, clock: nat, p: Client, next: Store<LeaseRecord>, later: nat)
    requires ClientOk(store, clock, p) && clock <= later && StoreOk(store)
    requires next == store || next == Delete(store) ||
             (next.item.Some? && next == Put(store, next.item.value.value, next.item.value.etag) &&
                 next.item.value.etag !in store.used)
    ensures ClientOk(next, later, p)
  {
  }

  /** Every step of any interleaving either leaves the lease as it is or is one legal step
      of the atomic lease at the current time. */
  lemma StepRefinesAtomicLease(s: System, a: Action)
    requires Inv(s)
    ensures var (t, e) := Step(s, a);
            && Inv(t) && s.clock <= t.clock
            && (e.None? ==> Current(t.store) == Current(s.store))
            && (e.Some? ==> t.clock == s.clock && Legal(Current(s.store), s.clock, e.value, Current(t.store)))
  {
    var (t, e) := Step(s, a);
    forall c | c in t.clients ensures ClientOk(t.store, t.clock, t.clients[c]) {
      if c in s.clients && t.clients[c] == s.clients[c] {
        ClientStaysOk(s.store, s.clock, s.clients[c], t.store, t.clock);
      }
    }
  }

  /** An acquire that nothing disturbs: refused while another holder's lease is unexpired,
      else granted until now plus the time to live, with the next token. */
  lemma UndisturbedAcquire(s: System, c: nat, holder: string, ttlMs: nat, tag: string)
    requires Phase(s, c).Idle? && tag !in s.store.used
    ensures var t := Step(s, Acquire(c, holder, ttlMs)).0;
            var u := Step(Step(t, ReadClock(c)).0, Load(c)).0;
            var (v, e) := Step(u, Commit(c, tag));
            var held := Current(s.store);
            var refused := held.Some? && held.value.expires > s.clock && held.value.holder != holder;
            var lease := LeaseRecord(holder, TokenOf(held) + 1, s.clock + TtlSeconds(ttlMs));
            && e == (if refused then None else Some(Acquired(lease)))
            && Current(v.store) == (if refused then held else Some(lease)) && Phase(v, c).Idle?
  {
    hide TtlSeconds;
  }

  /** A refresh that nothing disturbs extends exactly the stored grant. */
  lemma UndisturbedRefresh(s: System, c: nat, lease: LeaseRecord, ttlMs: nat, tag: string)
    requires Phase(s, c).Idle? && tag !in s.store.used
    ensures var t := Step(s, Refresh(c, lease, ttlMs)).0;
            var u := Step(Step(t, Load(c)).0, ReadClock(c)).0;
            var (v, e) := Step(u, Commit(c, tag));
            var held := Current(s.store);
            var next := LeaseRecord(lease.holder, lease.token, s.clock + TtlSeconds(ttlMs));
            && e == (if held.Some? && SameGrant(held.value, lease) then Some(Refreshed(next)) else None)
            && Current(v.store) == (if e.Some? then Some(next) else held) && Phase(v, c).Idle?
  {
    hide TtlSeconds;
  }

  /** A release that nothing disturbs deletes exactly the stored grant. */
  lemma UndisturbedRelease(s: System, c: nat, lease: LeaseRecord, tag: string)
    requires Phase(s, c).Idle? && tag !in s.store.used
    ensures var t := Step(s, Release(c, lease)).0;
            var u := Step(t, Load(c)).0;
            var (v, e) := Step(u, Commit(c, tag));
            var held := Current(s.store);
            && e == (if held.Some? && SameGrant(held.value, lease) then Some(Released(lease)) else None)
            && Current(v.store) == (if e.Some? then None else held) && Phase(v, c).Idle?
  {
  }

  // ---------------------------------------------------------------- runs

  function Run(s: System, actions: seq<Action>): System
    decreases |actions|
  {
    if actions == [] then s else Run(Step(s, actions[0]).0, actions[1..])
  }

  /** The committed effects of a run, in order. */
  function Effects(s: System, actions: seq<Action>): seq<Effect>
    decreases |actions|
  {
    if actions == [] then [] else
    var (t, e) := Step(s, actions[0]);
    (if e.Some? then [e.value] else []) + Effects(t, actions[1..])
  }

  const NoLease := System(Store(None, {}), 0, map[])

  lemma {:induction false} RunKeepsInv(s: System, actions: seq<Action>)
    requires Inv(s)
    ensures Inv(Run(s, actions)) && s.clock <= Run(s, actions).clock
    decreases |actions|
  {
    hide Inv, Step;
    if actions != [] {
      StepRefinesAtomicLease(s, actions[0]);
      RunKeepsInv(Step(s, actions[0]).0, actions[1..]);
    }
  }

  function HolderOf(e: Effect): string { e.lease.holder }

  /** In every run by any number of clients, at every step: what commits while the stored lease
      is unexpired carries the stored holder. */
  lemma LeaseIsExclusive(actions: seq<Action>, a: Action)
    ensures var s := Run(NoLease, actions);
            var held, e := Current(s.store), Step(s, a).1;
            held.Some? && s.clock < held.value.expires && e.Some? ==> HolderOf(e.value) == held.value.holder
  {
    hide Inv, Step, Run;
    ReachableIsOk(actions);
    StepRefinesAtomicLease(Run(NoLease, actions), a);
  }

  /** Until the stored expiry, a run without effects of the holder has no effect at all. */
  lemma {:induction false} OthersLeaveLeaseAlone(s: System, actions: seq<Action>)
    requires Inv(s) && s.store.item.Some?
    requires Run(s, actions).clock < s.store.item.value.value.expires
    requires forall e | e in Effects(s, actions) :: HolderOf(e) != s.store.item.value.value.holder
    ensures Effects(s, actions) == [] && Current(Run(s, actions).store) == Current(s.store)
    decreases |actions|
  {
    hide Inv, Step;
    if actions != [] {
      var (t, e) := Step(s, actions[0]);
      StepRefinesAtomicLease(s, actions[0]);
      RunKeepsInv(t, actions[1..]);
      assert e.Some? ==> e.value in Effects(s, actions);
      assert e.None?;
      assert forall x | x in Effects(t, actions[1..]) :: x in Effects(s, actions);
      OthersLeaveLeaseAlone(t, actions[1..]);
    }
  }

  function TokenOf(lease: Option<LeaseRecord>): nat
  {
    if lease.Some? then lease.value.token else 0
  }

  function Acquisitions(effects: seq<Effect>): nat
  {
    if effects == [] then 0 else (if effects[0].Acquired? then 1 else 0) + Acquisitions(effects[1..])
  }

  /** Within one lifetime of the object every committed acquire raises the fencing token by
      exactly one, and nothing else changes it. */
  lemma {:induction false} TokenCountsAcquisitions(s: System, actions: seq<Action>)
    requires Inv(s) && forall e | e in Effects(s, actions) :: !e.Released?
    ensures TokenOf(Current(Run(s, actions).store)) == TokenOf(Current(s.store)) + Acquisitions(Effects(s, actions))
    decreases |actions|
  {
    hide Inv, Step;
    if actions != [] {
      var (t, e) := Step(s, actions[0]);
      var rest := Effects(t, actions[1..]);
      StepRefinesAtomicLease(s, actions[0]);
      assert e.Some? ==> ([e.value] + rest)[1..] == rest && e.value in Effects(s, actions);
      assert forall x | x in rest :: x in Effects(s, actions);
      TokenCountsAcquisitions(t, actions[1..]);
      assert [] + rest == rest;
    }
  }

  /** A refresh or release that presents a token older than the stored one commits nothing. */
  lemma StaleGrantCommitsNothing(s: System, a: Action)
    requires Inv(s)
    ensures var e := Step(s, a).1;
            e.Some? && !e.value.Acquired? ==> e.value.lease.token == TokenOf(Current(s.store)) && Current(s.store).Some?
  {
    hide Inv, Step;
    StepRefinesAtomicLease(s, a);
  }

  /** From the first use of the item: all of the above holds of every reachable state. */
  lemma ReachableIsOk(actions: seq<Action>)
    ensures Inv(Run(NoLease, actions))
  {
    RunKeepsInv(NoLease, actions);
  }

  /** A fencing token that a later acquire has superseded in the same lifetime never
      commits a refresh or a release again in that lifetime. */
  lemma SupersededIsFenced(s: System, actions: seq<Action>, a: Action)
    requires Inv(s) && forall e | e in Effects(s, actions) :: !e.Released?
    requires Acquisitions(Effects(s, actions)) > 0
    ensures var e := Step(Run(s, actions), a).1;
            e.Some? && !e.value.Acquired? ==> e.value.lease.token > TokenOf(Current(s.store))
  {
    hide Inv, Step;
    RunKeepsInv(s, actions);
    TokenCountsAcquisitions(s, actions);
    StaleGrantCommitsNothing(Run(s, actions), a);
  }

  // ---------------------------------------------------------------- across lifetimes

  /** The effects of a run as steps on the stored token alone. */
  predicate TokenChain(token: Option<nat>, effects: seq<Effect>)
    decreases |effects|
  {
    effects == [] ||
    match effects[0]
    case Acquired(lease) =>
      lease.token == (if token.Some? then token.value + 1 else 1) && TokenChain(Some(lease.token), effects[1..])
    case Refreshed(lease) => token == Some(lease.token) && TokenChain(token, effects[1..])
    case Released(lease) => token == Some(lease.token) && TokenChain(None, effects[1..])
  }

  function StoredToken(s: System): Option<nat>
  {
    if s.store.item.Some? then Some(s.store.item.value.value.token) else None
  }

  lemma {:induction false} EffectsChain(s: System, actions: seq<Action>)
    requires Inv(s)
    ensures TokenChain(StoredToken(s), Effects(s, actions))
    decreases |actions|
  {
    hide Inv, Step;
    if actions != [] {
      var (t, e) := Step(s, actions[0]);
      var rest := Effects(t, actions[1..]);
      StepRefinesAtomicLease(s, actions[0]);
      EffectsChain(t, actions[1..]);
      assert [] + rest == rest;
      assert e.Some? ==> ([e.value] + rest)[1..] == rest;
    }
  }

  function GrantedTokens(effects: seq<Effect>): seq<nat>
  {
    if effects == [] then []
    else (if effects[0].Acquired? then [effects[0].lease.token] else []) + GrantedTokens(effects[1..])
  }

  /** Some acquire commits after a release. */
  ghost predicate Reacquired(effects: seq<Effect>)
  {
    exists i, j :: 0 <= i < j < |effects| && effects[i].Released? && effects[j].Acquired?
  }

  lemma ReacquiredTail(effects: seq<Effect>)
    requires effects != [] && !effects[0].Released?
    ensures Reacquired(effects) <==> Reacquired(effects[1..])
  {
    var rest := effects[1..];
    if Reacquired(effects) {
      var i, j :| 0 <= i < j < |effects| && effects[i].Released? && effects[j].Acquired?;
      assert rest[i - 1].Released? && rest[j - 1].Acquired?;
    }
    if Reacquired(rest) {
      var i, j :| 0 <= i < j < |rest| && rest[i].Released? && rest[j].Acquired?;
      assert effects[i + 1].Released? && effects[j + 1].Acquired?;
    }
  }

  lemma {:induction false} NoneGranted(effects: seq<Effect>)
    requires forall i | 0 <= i < |effects| :: !effects[i].Acquired?
    ensures GrantedTokens(effects) == []
  {
    if effects != [] { NoneGranted(effects[1..]); }
  }

  ghost predicate Climbs(floor: nat, q: seq<nat>)
  {
    (forall i | 0 <= i < |q| :: q[i] > floor) && (forall i, j | 0 <= i < j < |q| :: q[i] < q[j])
  }

  lemma ClimbsOn(floor: nat, x: nat, q: seq<nat>)
    requires x > floor && Climbs(x, q)
    ensures Climbs(floor, [x] + q) && NoDuplicates([x] + q)
  {
    forall j | 0 <= j < |q| ensures q[j] > x { }
  }

  lemma ReleasedGrantsNone(effects: seq<Effect>)
    requires effects != [] && effects[0].Released? && !Reacquired(effects)
    ensures GrantedTokens(effects) == []
  {
    var rest := effects[1..];
    forall j | 0 <= j < |rest| ensures !rest[j].Acquired? { assert rest[j] == effects[j + 1]; }
    NoneGranted(rest);
  }

  /** Without an acquire after a release the tokens climb from the stored one. */
  lemma {:induction false} TokensClimb(token: Option<nat>, effects: seq<Effect>)
    requires TokenChain(token, effects) && !Reacquired(effects)
    ensures Climbs(if token.Some? then token.value else 0, GrantedTokens(effects))
    decreases |effects|
  {
    hide Reacquired, Climbs;
    if effects == [] || effects[0].Released? {
      if effects != [] { ReleasedGrantsNone(effects); }
      NothingClimbs(if token.Some? then token.value else 0);
    } else {
      var e, rest := effects[0], effects[1..];
      ReacquiredTail(effects);
      TokensClimb(if e.Acquired? then Some(e.lease.token) else token, rest);
      if e.Acquired? {
        ClimbsOn(if token.Some? then token.value else 0, e.lease.token, GrantedTokens(rest));
      } else {
        assert [] + GrantedTokens(rest) == GrantedTokens(rest);
      }
    }
  }

  lemma NothingClimbs(floor: nat)
    ensures Climbs(floor, [])
  {
  }

  /** After a release the next effect can only be an acquire, and it gets token 1. */
  lemma {:induction false} ReacquireGetsOne(token: Option<nat>, effects: seq<Effect>)
    requires TokenChain(token, effects) && Reacquired(effects)
    ensures 1 in GrantedTokens(effects)
    decreases |effects|
  {
    var rest := effects[1..];
    if effects[0].Released? {
      assert rest[0].Acquired? && GrantedTokens(rest)[0] == 1;
    } else {
      ReacquiredTail(effects);
      ReacquireGetsOne(if effects[0].Acquired? then Some(effects[0].lease.token) else token, rest);
    }
  }

  /** Over every run from the first use of the object, fencing tokens are unique if and only if
      no acquire commits after a release. */
  lemma TokensUniqueIffNeverReacquired(actions: seq<Action>)
    ensures var effects := Effects(NoLease, actions);
            NoDuplicates(GrantedTokens(effects)) <==> !Reacquired(effects)
  {
    hide Step, Reacquired, Effects;
    var effects := Effects(NoLease, actions);
    EffectsChain(NoLease, actions);
    if Reacquired(effects) {
      NonEmptyChain(effects);
      var rest := effects[1..];
      ReacquiredTail(effects);
      ReacquireGetsOne(Some(1), rest);
      var q := GrantedTokens(effects);
      var j :| 0 <= j < |GrantedTokens(rest)| && GrantedTokens(rest)[j] == 1;
      assert q[0] == 1 && q[j + 1] == 1;
    } else {
      TokensClimb(None, effects);
    }
  }

  lemma NonEmptyChain(effects: seq<Effect>)
    requires TokenChain(None, effects) && Reacquired(effects)
    ensures effects != [] && effects[0].Acquired? && effects[0].lease.token == 1 && TokenChain(Some(1), effects[1..])
  {
  }

  /** One such run, for any two holders: both lifetimes grant token 1. */
  lemma ReleaseRestartsTokens(a: string, b: string)
    ensures var first, second := LeaseRecord(a, 1, 1), LeaseRecord(b, 1, 1);
            var run := [Acquire(0, a, 1000), ReadClock(0), Commit(0, "t1"),
                        Release(0, first), Load(0), Commit(0, ""),
                        Acquire(0, b, 1000), ReadClock(0), Commit(0, "t2")];
            Effects(NoLease, run) == [Acquired(first), Released(first), Acquired(second)]
  {
    hide Step, Effects;
    var first, second := LeaseRecord(a, 1, 1), LeaseRecord(b, 1, 1);
    var third := [Acquire(0, b, 1000), ReadClock(0), Commit(0, "t2")];
    var later := [Release(0, first), Load(0), Commit(0, "")] + third;
    var s3 := Move(NoLease, 0, Idle).(store := Put(NoLease.store, first, "t1"));
    var s6 := Move(s3, 0, Idle).(store := Delete(s3.store));
    var s9 := Move(s6, 0, Idle).(store := Put(s6.store, second, "t2"));
    FirstAcquire(NoLease, a, 1000, "t1");
    ThreeSteps(NoLease, Acquire(0, a, 1000), ReadClock(0), Commit(0, "t1"), later);
    ReleaseOwn(s3, first, "");
    ThreeSteps(s3, Release(0, first), Load(0), Commit(0, ""), third);
    assert Effects(s3, later) == [Released(first)] + Effects(s6, third);
    FirstAcquire(s6, b, 1000, "t2");
    ThreeSteps(s6, Acquire(0, b, 1000), ReadClock(0), Commit(0, "t2"), []);
    assert third + [] == third;
    NoEffects(s9);
    assert Effects(s6, third) == [Acquired(second)] + [];
    assert [Acquire(0, a, 1000), ReadClock(0), Commit(0, "t1")] + later ==
           [Acquire(0, a, 1000), ReadClock(0), Commit(0, "t1"), Release(0, first), Load(0), Commit(0, ""),
            Acquire(0, b, 1000), ReadClock(0), Commit(0, "t2")];
  }

  lemma NoEffects(s: System)
    ensures Effects(s, []) == []
  {
  }

  /** An undisturbed acquire of a missing lease object. */
  lemma FirstAcquire(s: System, holder: string, ttlMs: nat, tag: string)
    requires Phase(s, 0).Idle? && s.store.item.None? && tag !in s.store.used
    ensures var lease := LeaseRecord(holder, 1, s.clock + TtlSeconds(ttlMs));
            var t := Step(s, Acquire(0, holder, ttlMs));
            var u := Step(t.0, ReadClock(0));
            t.1 == u.1 == None && Step(u.0, Commit(0, tag)) == (Move(s, 0, Idle).(store := Put(s.store, lease, tag)),
                                                                Some(Acquired(lease)))
  {
    var t := Step(s, Acquire(0, holder, ttlMs)).0;
    var u := Step(t, ReadClock(0)).0;
    assert Step(u, Commit(0, tag)).0.clients == Move(s, 0, Idle).clients;
  }

  /** An undisturbed release of the stored grant. */
  lemma ReleaseOwn(s: System, lease: LeaseRecord, tag: string)
    requires Phase(s, 0).Idle? && Current(s.store) == Some(lease) && tag !in s.store.used
    ensures var t := Step(s, Release(0, lease));
            var u := Step(t.0, Load(0));
            t.1 == u.1 == None && Step(u.0, Commit(0, tag)) == (Move(s, 0, Idle).(store := Delete(s.store)),
                                                                Some(Released(lease)))
  {
    var t := Step(s, Release(0, lease)).0;
    var u := Step(t, Load(0)).0;
    assert Step(u, Commit(0, tag)).0.clients == Move(s, 0, Idle).clients;
  }

  lemma EffectsStep(s: System, a: Action, rest: seq<Action>)
    ensures Effects(s, [a] + rest) == (if Step(s, a).1.Some? then [Step(s, a).1.value] else []) +
            Effects(Step(s, a).0, rest)
  {
    hide Step;
    assert ([a] + rest)[1..] == rest;
  }

  lemma ThreeSteps(s: System, a: Action, b: Action, c: Action, rest: seq<Action>)
    ensures var (t, e) := Step(s, a);
            var (u, f) := Step(t, b);
            var (v, g) := Step(u, c);
            e.None? && f.None? && g.Some? ==> Effects(s, [a, b, c] + rest) == [g.value] + Effects(v, rest)
  {
    hide Step, Effects;
    var t, u := Step(s, a).0, Step(Step(s, a).0, b).0;
    assert [a, b, c] + rest == [a] + ([b] + ([c] + rest));
    EffectsStep(s, a, [b] + ([c] + rest));
    EffectsStep(t, b, [c] + rest);
    EffectsStep(u, c, rest);
    assert [] + Effects(t, [b] + ([c] + rest)) == Effects(t, [b] + ([c] + rest));
    assert [] + Effects(u, [c] + rest) == Effects(u, [c] + rest);
  }
}
