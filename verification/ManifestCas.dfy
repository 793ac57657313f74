/** Compare-and-swap of the branch manifest pointer on one object of the remote store
    (crates/tracedb-remote-storage/src/lib.rs). */
module ManifestCas {
  import opened Ordering
  import opened ObjectStore

  datatype Pointer = Pointer(generation: nat, manifest: string)

  datatype Client =
    | Idle
    | Headed(expected: Option<nat>, next: Pointer, head: Option<string>)
    | Ready(condition: PutCondition, next: Pointer, expected: Option<nat>)

  datatype System = System(store: Store<Pointer>, clients: map<nat, Client>)

  datatype Action =
    | Request(c: nat, expected: Option<nat>, next: Pointer) // head
    | Load(c: nat)                                          // get, and the generation check
    | Commit(c: nat, tag: string)                           // conditional put
    | Abandon(c: nat)

  /** A swap that succeeded. */
  datatype Swap = Swap(expected: Option<nat>, next: Pointer)

  function Phase(s: System, c: nat): Client
  {
    if c in s.clients then s.clients[c] else Idle
  }

  function Move(s: System, c: nat, p: Client): System
  {
    s.(clients := s.clients[c := p])
  }

  function Step(s: System, a: Action): (System, Option<Swap>)
  {
    match a
    case Request(c, expected, next) =>
      var head := if s.store.item.Some? then Some(s.store.item.value.etag) else None;
      (if !Phase(s, c).Idle? then s
       else if expected.Some? then Move(s, c, Headed(expected, next, head))
       else if head.Some? then s                              // the pointer exists already
       else Move(s, c, Ready(IfAbsent, next, None)), None)
    case Load(c) =>
      (match Phase(s, c)
       case Headed(Some(g), next, head) =>
         var found := Current(s.store);
         Move(s, c, if found.None? || found.value.generation != g || head.None? then Idle
                    else Ready(IfMatchEtag(head.value), next, Some(g)))
       case _ => s, None)
    case Commit(c, tag) =>
      if tag in s.store.used then (s, None) else
      (match Phase(s, c)
       case Ready(condition, next, expected) =>
         if Allows(s.store, condition) then (Move(s, c, Idle).(store := Put(s.store, next, tag)),
                                             Some(Swap(expected, next)))
         else (Move(s, c, Idle), None)
       case _ => (s, None))
    case Abandon(c) => (Move(s, c, Idle), None)
  }

  /** The pointer's generation is the one the swap expects; none when it expects none. */
  predicate Meets(current: Option<Pointer>, expected: Option<nat>)
  {
    match current
    case None => expected.None?
    case Some(p) => expected == Some(p.generation)
  }

  ghost predicate ClientOk(store: Store<Pointer>, p: Client)
  {
    match p
    case Idle => true
    case Headed(expected, _, head) => expected.Some? && (head.Some? ==> head.value in store.used)
    case Ready(IfAbsent, _, expected) => expected.None?
    case Ready(IfMatchEtag(etag), _, expected) =>
      expected.Some? && etag in store.used &&
      (store.item.Some? && store.item.value.etag == etag ==> store.item.value.value.generation == expected.value)
  }

  ghost predicate Inv(s: System)
  {
    StoreOk(s.store) && forall c | c in s.clients :: ClientOk(s.store, s.clients[c])
  }

  lemma ClientStaysOk(store: Store<Pointer>, p: Client, next: Store<Pointer>)
    requires ClientOk(store, p) && StoreOk(store)
    requires next == store ||
             (next.item.Some? && next == Put(store, next.item.value.value, next.item.value.etag) &&
                 next.item.value.etag !in store.used)
    ensures ClientOk(next, p)
  {
  }

  /** In every interleaving a swap that succeeds replaces, at its put, a pointer of exactly
      the expected generation, or creates the first one; no other step changes the pointer. */
  lemma StepIsAtomicSwap(s: System, a: Action)
    requires Inv(s)
    ensures var (t, e) := Step(s, a);
            && Inv(t)
            && (e.None? ==> Current(t.store) == Current(s.store))
            && (e.Some? ==> Meets(Current(s.store), e.value.expected) && Current(t.store) == Some(e.value.next))
  {
    var (t, e) := Step(s, a);
    forall c | c in t.clients ensures ClientOk(t.store, t.clients[c]) {
      if c in s.clients && t.clients[c] == s.clients[c] {
        ClientStaysOk(s.store, s.clients[c], t.store);
      }
    }
  }

  /** A swap that nothing disturbs succeeds if and only if the pointer is what it expects. */
  lemma UndisturbedSwap(s: System, c: nat, expected: Option<nat>, next: Pointer, tag: string)
    requires Phase(s, c).Idle? && tag !in s.store.used
    ensures var t := Step(s, Request(c, expected, next)).0;
            var u := Step(t, Load(c)).0;
            var (v, e) := Step(u, Commit(c, tag));
            && e == (if Meets(Current(s.store), expected) then Some(Swap(expected, next)) else None)
            && Current(v.store) == (if Meets(Current(s.store), expected) then Some(next) else Current(s.store))
            && Phase(v, c).Idle?
  {
  }

  function Run(s: System, actions: seq<Action>): System
    decreases |actions|
  {
    if actions == [] then s else Run(Step(s, actions[0]).0, actions[1..])
  }

  function Swaps(s: System, actions: seq<Action>): seq<Swap>
    decreases |actions|
  {
    if actions == [] then [] else
    var (t, e) := Step(s, actions[0]);
    (if e.Some? then [e.value] else []) + Swaps(t, actions[1..])
  }

  /** Each swap starts from what the one before it wrote. */
  ghost predicate Chain(from: Option<Pointer>, swaps: seq<Swap>, to: Option<Pointer>)
    decreases |swaps|
  {
    if swaps == [] then from == to
    else Meets(from, swaps[0].expected) && Chain(Some(swaps[0].next), swaps[1..], to)
  }

  /** The successful swaps of every run form one chain from the first pointer to the last:
      each expects the generation the previous one wrote, so none is lost. */
  lemma {:induction false} NoSwapIsLost(s: System, actions: seq<Action>)
    requires Inv(s)
    ensures Chain(Current(s.store), Swaps(s, actions), Current(Run(s, actions).store)) && Inv(Run(s, actions))
    decreases |actions|
  {
    hide Inv, Step, Meets;
    if actions != [] {
      var (t, e) := Step(s, actions[0]);
      var rest := Swaps(t, actions[1..]);
      StepIsAtomicSwap(s, actions[0]);
      NoSwapIsLost(t, actions[1..]);
      assert e.Some? ==> ([e.value] + rest)[1..] == rest;
      assert [] + rest == rest;
    }
  }

  predicate Increments(swaps: seq<Swap>)
  {
    forall i | 0 <= i < |swaps| && swaps[i].expected.Some? :: swaps[i].next.generation == swaps[i].expected.value + 1
  }

  lemma {:induction false} ChainCounts(from: Option<Pointer>, swaps: seq<Swap>, to: Option<Pointer>)
    requires Chain(from, swaps, to) && Increments(swaps) && from.Some?
    ensures to.Some? && to.value.generation == from.value.generation + |swaps|
    ensures forall i | 0 <= i < |swaps| :: swaps[i].next.generation == from.value.generation + i + 1
    decreases |swaps|
  {
    if swaps != [] {
      ChainCounts(Some(swaps[0].next), swaps[1..], to);
      assert forall i | 1 <= i < |swaps| :: swaps[i] == swaps[1..][i - 1];
    }
  }

  /** If callers always write the expected generation plus one, generations climb by one from
      that of the first swap, which is one above the stored pointer if there was one: after
      any run, from any state, the generation tells exactly how many swaps succeeded. */
  lemma GenerationsClimbByOne(s: System, actions: seq<Action>)
    requires Inv(s) && Increments(Swaps(s, actions))
    ensures var start, end, swaps := Current(s.store), Current(Run(s, actions).store), Swaps(s, actions);
            if swaps == [] then end == start
            else
              var first := swaps[0].next.generation;
              && (start.Some? ==> first == start.value.generation + 1)
              && end.Some? && end.value.generation == first + |swaps| - 1
              && forall i | 0 <= i < |swaps| :: swaps[i].next.generation == first + i
  {
    hide Inv, Swaps, Run;
    NoSwapIsLost(s, actions);
    var end, swaps := Current(Run(s, actions).store), Swaps(s, actions);
    if swaps != [] {
      var rest := swaps[1..];
      assert forall i | 0 <= i < |rest| :: rest[i] == swaps[i + 1];
      ChainCounts(Some(swaps[0].next), rest, end);
      assert forall i | 1 <= i < |swaps| :: swaps[i] == rest[i - 1];
    }
  }

  const NoPointer := System(Store(None, {}), map[])

  lemma StartIsOk()
    ensures Inv(NoPointer)
  {
  }

  lemma {:induction false} OnlyFirstCreates(from: Option<Pointer>, swaps: seq<Swap>, to: Option<Pointer>, i: nat)
    requires Chain(from, swaps, to) && i < |swaps|
    ensures swaps[i].expected.None? <==> i == 0 && from.None?
    decreases |swaps|
  {
    if i > 0 { OnlyFirstCreates(Some(swaps[0].next), swaps[1..], to, i - 1); }
  }

  lemma {:induction false} ChainEnds(from: Option<Pointer>, swaps: seq<Swap>, to: Option<Pointer>)
    requires Chain(from, swaps, to)
    ensures to == if swaps == [] then from else Some(swaps[|swaps| - 1].next)
    decreases |swaps|
  {
    if swaps != [] { ChainEnds(Some(swaps[0].next), swaps[1..], to); }
  }

  /** In every run from an object never written: the first successful swap is the only one that
      expects no pointer, each later one expects the generation the one before it wrote, and
      the pointer is what the last one wrote. */
  lemma EveryRunIsAChain(actions: seq<Action>)
    ensures var swaps := Swaps(NoPointer, actions);
            && Chain(None, swaps, Current(Run(NoPointer, actions).store))
            && (forall i | 0 <= i < |swaps| :: swaps[i].expected.None? <==> i == 0)
            && Current(Run(NoPointer, actions).store) == (if swaps == [] then None else Some(swaps[|swaps| - 1].next))
  {
    hide Inv, Swaps, Run, Chain;
    StartIsOk();
    NoSwapIsLost(NoPointer, actions);
    var swaps, end := Swaps(NoPointer, actions), Current(Run(NoPointer, actions).store);
    ChainEnds(None, swaps, end);
    forall i | 0 <= i < |swaps| ensures swaps[i].expected.None? <==> i == 0 { OnlyFirstCreates(None, swaps, end, i); }
  }
}
