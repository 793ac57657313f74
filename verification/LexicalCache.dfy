/** The cache of prepared lexical corpora (crates/tracedb-query/src/lib.rs): entries stamped
    with a saturating tick, refined from a move-to-front list cut to the capacity. */
module LexicalCache {
  import opened Ordering

  datatype Entry<C> = Entry(corpus: C, lastUsed: nat)

  type Entries<C> = map<string, Entry<C>>

  datatype Cache<C> = Cache(entries: Entries<C>, tick: nat)

  const DEFAULT_CAPACITY: nat := 64

  function NextTick(tick: nat): nat
  {
    if tick >= U64_MAX then tick else tick + 1
  }

  /** The order of eviction: by stamp, then by key. */
  predicate Older<C>(entries: Entries<C>, a: string, b: string)
  {
    a in entries && b in entries &&
    (entries[a].lastUsed < entries[b].lastUsed || (entries[a].lastUsed == entries[b].lastUsed && Less(a, b)))
  }

  lemma OlderIsTotal<C>(entries: Entries<C>)
    ensures TotalOn((a, b) => Older(entries, a, b), entries.Keys)
  {
    LessIsTotal(entries.Keys);
  }

  /** The entry that eviction removes. */
  function Victim<C(!new)>(entries: Entries<C>): (k: string)
    requires entries != map[]
    ensures k in entries && forall o | o in entries :: o == k || Older(entries, k, o)
  {
    OlderIsTotal(entries);
    var k := LeastBy((a, b) => Older(entries, a, b), entries.Keys);
    assert forall o | o in entries :: o in entries.Keys;
    k
  }

  lemma VictimIsUnique<C(!new)>(entries: Entries<C>, k: string)
    requires k in entries && forall o | o in entries :: o == k || Older(entries, k, o)
    ensures Victim(entries) == k
  {
    OlderIsTotal(entries);
    var v := Victim(entries);
    LessIrreflexive(k);
    if v != k && Less(k, v) && Less(v, k) { LessTransitive(k, v, k); }
  }

  function Evict<C(!new)>(entries: Entries<C>, capacity: nat): Entries<C>
    decreases |entries|
  {
    if |entries| <= capacity then entries else Evict(entries - {Victim(entries)}, capacity)
  }

  function Get<C>(c: Cache<C>, key: string): (Cache<C>, Option<C>)
  {
    var tick := NextTick(c.tick);
    if key in c.entries then (Cache(c.entries[key := c.entries[key].(lastUsed := tick)], tick),
                              Some(c.entries[key].corpus))
    else (c.(tick := tick), None)
  }

  function Insert<C(!new)>(c: Cache<C>, capacity: nat, key: string, corpus: C): Cache<C>
  {
    var tick := NextTick(c.tick);
    Cache(Evict(c.entries[key := Entry(corpus, tick)], capacity), tick)
  }

  function Empty<C>(): Cache<C>
  {
    Cache(map[], 0)
  }

  class LexicalCorpusCache<C(!new)> {
    var entries: Entries<C>
    var capacity: nat
    var tick: nat

    ghost function State(): Cache<C> reads this { Cache(entries, tick) }

    constructor ()
      ensures State() == Empty() && capacity == DEFAULT_CAPACITY
    {
      entries, capacity, tick := map[], DEFAULT_CAPACITY, 0;
    }

    method Tick() returns (now: nat)
      modifies this`tick
      ensures now == tick == NextTick(old(tick))
    {
      tick := NextTick(tick);
      now := tick;
    }

    method Lookup(key: string) returns (found: Option<C>)
      modifies this`entries, this`tick
      ensures (State(), found) == Get(old(State()), key)
    {
      var now := Tick();
      if key !in entries { return None; }
      entries := entries[key := entries[key].(lastUsed := now)];
      return Some(entries[key].corpus);
    }

    method Store(key: string, corpus: C)
      modifies this`entries, this`tick
      ensures State() == Insert(old(State()), capacity, key, corpus)
    {
      var now := Tick();
      entries := entries[key := Entry(corpus, now)];
      EvictLru();
    }

    method Clear()
      modifies this`entries, this`tick
      ensures State() == Empty()
    {
      entries, tick := map[], 0;
    }

    method EvictLru()
      modifies this`entries
      ensures entries == Evict(old(entries), capacity)
    {
      while |entries| > capacity
        invariant Evict(entries, capacity) == Evict(old(entries), capacity)
        decreases |entries|
      {
        var key := LeastRecent();
        entries := entries - {key};
      }
    }

    /** The scan for the minimum. */
    method LeastRecent() returns (key: string)
      requires entries != map[]
      ensures key == Victim(entries)
    {
      key :| key in entries;
      var rest := entries.Keys - {key};
      while rest != {}
        invariant key in entries && rest <= entries.Keys
        invariant forall o | o in entries && o !in rest :: o == key || Older(entries, key, o)
      {
        var other :| other in rest;
        CompareStamps(entries, key, other);
        if Older(entries, other, key) { key := other; }
        rest := rest - {other};
      }
      VictimIsUnique(entries, key);
    }
  }

  lemma CompareStamps<C>(entries: Entries<C>, a: string, b: string)
    requires a in entries && b in entries
    ensures a == b || Older(entries, a, b) || Older(entries, b, a)
    ensures Older(entries, b, a) ==> forall o | Older(entries, a, o) :: Older(entries, b, o)
  {
    LessTotal(a, b);
    forall o | Older(entries, b, a) && Older(entries, a, o) ensures Older(entries, b, o) {
      if Less(b, a) && Less(a, o) { LessTransitive(b, a, o); }
    }
  }

  // ---------------------------------------------------------------- the move-to-front list

  datatype Slot<C> = Slot(key: string, corpus: C)

  type Recent<C> = seq<Slot<C>>

  function Find<C>(l: Recent<C>, key: string): Option<C>
  {
    if l == [] then None else if l[0].key == key then Some(l[0].corpus) else Find(l[1..], key)
  }

  function Without<C>(l: Recent<C>, key: string): Recent<C>
  {
    if l == [] then [] else if l[0].key == key then l[1..] else [l[0]] + Without(l[1..], key)
  }

  function ListGet<C>(l: Recent<C>, key: string): (Recent<C>, Option<C>)
  {
    var found := Find(l, key);
    (if found.Some? then [Slot(key, found.value)] + Without(l, key) else l, found)
  }

  function ListInsert<C>(l: Recent<C>, capacity: nat, key: string, corpus: C): Recent<C>
  {
    Take([Slot(key, corpus)] + Without(l, key), capacity)
  }

  /** `entries` are the slots of `l`, with stamps that fall strictly along the list from at most `top`. */
  predicate Holds<C(==)>(entries: Entries<C>, l: Recent<C>, top: int)
    decreases |l|
  {
    if l == [] then entries == map[]
    else
      && l[0].key in entries && entries[l[0].key].corpus == l[0].corpus && entries[l[0].key].lastUsed <= top
      && Holds(entries - {l[0].key}, l[1..], entries[l[0].key].lastUsed - 1)
  }

  predicate Represents<C(==)>(c: Cache<C>, l: Recent<C>)
  {
    Holds(c.entries, l, c.tick)
  }

  lemma {:induction false} HoldsCount<C>(entries: Entries<C>, l: Recent<C>, top: int)
    requires Holds(entries, l, top)
    ensures |entries| == |l|
    decreases |l|
  {
    if l != [] {
      HoldsCount(entries - {l[0].key}, l[1..], entries[l[0].key].lastUsed - 1);
      assert entries.Keys == (entries - {l[0].key}).Keys + {l[0].key};
    }
  }

  lemma HoldsHigher<C>(entries: Entries<C>, l: Recent<C>, top: int, higher: int)
    requires Holds(entries, l, top) && top <= higher
    ensures Holds(entries, l, higher)
  {
  }

  lemma {:induction false} HoldsBelow<C>(entries: Entries<C>, l: Recent<C>, top: int, key: string)
    requires Holds(entries, l, top) && key in entries
    ensures entries[key].lastUsed <= top
    decreases |l|
  {
    if l[0].key != key { HoldsBelow(entries - {l[0].key}, l[1..], entries[l[0].key].lastUsed - 1, key); }
  }

  lemma {:induction false} HoldsFind<C>(entries: Entries<C>, l: Recent<C>, top: int, key: string)
    requires Holds(entries, l, top)
    ensures Find(l, key) == if key in entries then Some(entries[key].corpus) else None
    ensures Holds(entries - {key}, Without(l, key), top)
    ensures key !in entries ==> Without(l, key) == l
    decreases |l|
  {
    if l != [] && l[0].key != key {
      var rest := entries - {l[0].key};
      HoldsFind(rest, l[1..], entries[l[0].key].lastUsed - 1, key);
      assert rest - {key} == (entries - {key}) - {l[0].key};
      var w := Without(l, key);
      assert w[0] == l[0] && w[1..] == Without(l[1..], key);
    } else if l == [] {
      assert entries - {key} == map[];
    }
  }

  lemma HoldsFront<C>(entries: Entries<C>, l: Recent<C>, top: nat, key: string, corpus: C)
    requires Holds(entries, l, top)
    ensures Holds(entries[key := Entry(corpus, top + 1)], [Slot(key, corpus)] + Without(l, key), top + 1)
  {
    HoldsFind(entries, l, top, key);
    var e := entries[key := Entry(corpus, top + 1)];
    var w := [Slot(key, corpus)] + Without(l, key);
    assert e - {key} == entries - {key};
    assert w[1..] == Without(l, key);
  }

  /** The last slot of the list has the oldest stamp. */
  lemma {:induction false} HoldsLast<C>(entries: Entries<C>, l: Recent<C>, top: int)
    requires Holds(entries, l, top) && l != []
    ensures var last := l[|l| - 1].key;
            && last in entries && Holds(entries - {last}, l[..|l| - 1], top) && entries[last].lastUsed <= top
            && (forall o | o in entries && o != last :: entries[last].lastUsed < entries[o].lastUsed)
    decreases |l|
  {
    var k, last := l[0].key, l[|l| - 1].key;
    var rest := entries - {k};
    if |l| == 1 {
      assert rest == map[] && l[1..] == [];
      assert forall o | o in entries :: o == k || o in rest;
    } else {
      HoldsLast(rest, l[1..], entries[k].lastUsed - 1);
      assert l[1..][|l| - 2] == l[|l| - 1];
      assert l[..|l| - 1][1..] == l[1..][..|l| - 2];
      assert rest - {last} == (entries - {last}) - {k};
      assert forall o | o in entries :: o == k || o in rest;
    }
  }

  /** The victim is the last slot of the list. */
  lemma HoldsVictim<C(!new)>(entries: Entries<C>, l: Recent<C>, top: int)
    requires Holds(entries, l, top) && l != []
    ensures entries != map[]
    ensures Victim(entries) == l[|l| - 1].key
    ensures Holds(entries - {l[|l| - 1].key}, l[..|l| - 1], top)
  {
    hide Less;
    HoldsLast(entries, l, top);
    VictimIsUnique(entries, l[|l| - 1].key);
  }

  lemma {:induction false} HoldsEvict<C(!new)>(entries: Entries<C>, l: Recent<C>, top: int, capacity: nat)
    requires Holds(entries, l, top)
    ensures Holds(Evict(entries, capacity), Take(l, capacity), top)
    decreases |l|
  {
    HoldsCount(entries, l, top);
    if |l| > capacity {
      HoldsVictim(entries, l, top);
      var shorter := l[..|l| - 1];
      HoldsEvict(entries - {Victim(entries)}, shorter, top, capacity);
      assert Take(shorter, capacity) == Take(l, capacity);
    }
  }

  // ---------------------------------------------------------------- runs

  datatype Op<C> = GetOp(key: string) | InsertOp(key: string, corpus: C) | ClearOp

  function Step<C(!new)>(c: Cache<C>, capacity: nat, op: Op<C>): (Cache<C>, Option<C>)
  {
    match op
    case GetOp(key) => Get(c, key)
    case InsertOp(key, corpus) => (Insert(c, capacity, key, corpus), None)
    case ClearOp => (Empty(), None)
  }

  function ListStep<C>(l: Recent<C>, capacity: nat, op: Op<C>): (Recent<C>, Option<C>)
  {
    match op
    case GetOp(key) => ListGet(l, key)
    case InsertOp(key, corpus) => (ListInsert(l, capacity, key, corpus), None)
    case ClearOp => ([], None)
  }

  /** The final cache and what each operation returned. */
  function Run<C(!new)>(c: Cache<C>, capacity: nat, ops: seq<Op<C>>): (Cache<C>, seq<Option<C>>)
    decreases |ops|
  {
    if ops == [] then (c, []) else
    var (d, r) := Step(c, capacity, ops[0]);
    var (e, rs) := Run(d, capacity, ops[1..]);
    (e, [r] + rs)
  }

  function ListRun<C>(l: Recent<C>, capacity: nat, ops: seq<Op<C>>): (Recent<C>, seq<Option<C>>)
    decreases |ops|
  {
    if ops == [] then (l, []) else
    var (m, r) := ListStep(l, capacity, ops[0]);
    var (n, rs) := ListRun(m, capacity, ops[1..]);
    (n, [r] + rs)
  }

  /** Starting at `tick`, no get or insert finds the tick saturated. */
  predicate NeverSaturates<C>(tick: nat, ops: seq<Op<C>>)
    decreases |ops|
  {
    ops == [] || (if ops[0].ClearOp? then NeverSaturates(0, ops[1..])
                  else tick < U64_MAX && NeverSaturates(tick + 1, ops[1..]))
  }

  /** One operation keeps the correspondence and answers alike. */
  lemma StepIsMoveToFront<C(!new)>(c: Cache<C>, l: Recent<C>, capacity: nat, op: Op<C>)
    requires Represents(c, l) && (op.ClearOp? || c.tick < U64_MAX)
    ensures Represents(Step(c, capacity, op).0, ListStep(l, capacity, op).0)
    ensures Step(c, capacity, op).1 == ListStep(l, capacity, op).1
    ensures Step(c, capacity, op).0.tick == if op.ClearOp? then 0 else c.tick + 1
  {
    match op
    case GetOp(key) =>
      HoldsFind(c.entries, l, c.tick, key);
      if key in c.entries {
        HoldsFront(c.entries, l, c.tick, key, c.entries[key].corpus);
      } else {
        HoldsHigher(c.entries, l, c.tick, c.tick + 1);
      }
    case InsertOp(key, corpus) =>
      HoldsFront(c.entries, l, c.tick, key, corpus);
      HoldsEvict(c.entries[key := Entry(corpus, c.tick + 1)], [Slot(key, corpus)] + Without(l, key),
                 c.tick + 1, capacity);
    case ClearOp =>
  }

  /** Any sequence of operations before the tick saturates, with any capacity: every answer
      and the final contents are those of a move-to-front list cut to the capacity. */
  lemma {:induction false} RunIsMoveToFront<C(!new)>(c: Cache<C>, l: Recent<C>, capacity: nat, ops: seq<Op<C>>)
    requires Represents(c, l) && NeverSaturates(c.tick, ops)
    ensures Represents(Run(c, capacity, ops).0, ListRun(l, capacity, ops).0)
    ensures Run(c, capacity, ops).1 == ListRun(l, capacity, ops).1
    decreases |ops|
  {
    if ops != [] {
      StepIsMoveToFront(c, l, capacity, ops[0]);
      hide Step, ListStep, Represents;
      RunIsMoveToFront(Step(c, capacity, ops[0]).0, ListStep(l, capacity, ops[0]).0, capacity, ops[1..]);
    }
  }

  lemma EveryRunIsMoveToFront<C(!new)>(capacity: nat, ops: seq<Op<C>>)
    requires NeverSaturates(0, ops)
    ensures Represents(Run(Empty<C>(), capacity, ops).0, ListRun([], capacity, ops).0)
    ensures Run(Empty<C>(), capacity, ops).1 == ListRun([], capacity, ops).1
  {
    RunIsMoveToFront(Empty<C>(), [], capacity, ops);
  }

  /** The list is determined by the cache. */
  lemma {:induction false} ListIsDetermined<C>(entries: Entries<C>, l: Recent<C>, m: Recent<C>, top: int, ceiling: int)
    requires Holds(entries, l, top) && Holds(entries, m, ceiling)
    ensures l == m
    decreases |l|
  {
    HoldsCount(entries, l, top);
    HoldsCount(entries, m, ceiling);
    if l != [] {
      var a, b := l[0].key, m[0].key;
      if a != b {
        HoldsBelow(entries - {a}, l[1..], entries[a].lastUsed - 1, b);
        HoldsBelow(entries - {b}, m[1..], entries[b].lastUsed - 1, a);
      }
      ListIsDetermined(entries - {a}, l[1..], m[1..], entries[a].lastUsed - 1, entries[b].lastUsed - 1);
      assert l == [l[0]] + l[1..] && m == [m[0]] + m[1..];
    }
  }

  lemma {:induction false} EvictedIsGone<C(!new)>(entries: Entries<C>, capacity: nat, key: string)
    requires key !in entries
    ensures key !in Evict(entries, capacity)
    decreases |entries|
  {
    if |entries| > capacity { EvictedIsGone(entries - {Victim(entries)}, capacity, key); }
  }

  // ---------------------------------------------------------------- the saturated tick

  /** Like `Holds`, but stamps at the saturated tick may be equal. */
  predicate Tied<C(==)>(entries: Entries<C>, l: Recent<C>, top: int)
    decreases |l|
  {
    if l == [] then entries == map[]
    else
      && l[0].key in entries && entries[l[0].key].corpus == l[0].corpus && entries[l[0].key].lastUsed <= top
      && Tied(entries - {l[0].key}, l[1..], Below(entries[l[0].key].lastUsed))
  }

  function Below(stamp: nat): int
  {
    stamp - if stamp == U64_MAX then 0 else 1
  }

  lemma {:induction false} HoldsIsTied<C>(entries: Entries<C>, l: Recent<C>, top: int)
    requires Holds(entries, l, top)
    ensures Tied(entries, l, top)
    decreases |l|
  {
    if l != [] {
      var stamp: int := entries[l[0].key].lastUsed;
      HoldsIsTied(entries - {l[0].key}, l[1..], stamp - 1);
      TiedHigher(entries - {l[0].key}, l[1..], stamp - 1, Below(stamp));
    }
  }

  lemma TiedHigher<C>(entries: Entries<C>, l: Recent<C>, top: int, higher: int)
    requires Tied(entries, l, top) && top <= higher
    ensures Tied(entries, l, higher)
  {
  }

  lemma {:induction false} TiedCount<C>(entries: Entries<C>, l: Recent<C>, top: int)
    requires Tied(entries, l, top)
    ensures |entries| == |l|
    decreases |l|
  {
    if l != [] {
      TiedCount(entries - {l[0].key}, l[1..], Below(entries[l[0].key].lastUsed));
      assert entries.Keys == (entries - {l[0].key}).Keys + {l[0].key};
    }
  }

  lemma {:induction false} TiedFind<C>(entries: Entries<C>, l: Recent<C>, top: int, key: string)
    requires Tied(entries, l, top)
    ensures Find(l, key) == if key in entries then Some(entries[key].corpus) else None
    ensures Tied(entries - {key}, Without(l, key), top)
    ensures key !in entries ==> Without(l, key) == l
    decreases |l|
  {
    if l != [] && l[0].key != key {
      var rest := entries - {l[0].key};
      TiedFind(rest, l[1..], Below(entries[l[0].key].lastUsed), key);
      assert rest - {key} == (entries - {key}) - {l[0].key};
      var w := Without(l, key);
      assert w[0] == l[0] && w[1..] == Without(l[1..], key);
    } else if l == [] {
      assert entries - {key} == map[];
    } else {
      TiedHigher(entries - {key}, l[1..], Below(entries[key].lastUsed), top);
    }
  }

  /** Using or inserting a key at the saturated tick moves it to the front. */
  lemma TiedFront<C>(entries: Entries<C>, l: Recent<C>, key: string, corpus: C)
    requires Tied(entries, l, U64_MAX)
    ensures Tied(entries[key := Entry(corpus, U64_MAX)], [Slot(key, corpus)] + Without(l, key), U64_MAX)
  {
    TiedFind(entries, l, U64_MAX, key);
    var e := entries[key := Entry(corpus, U64_MAX)];
    var w := [Slot(key, corpus)] + Without(l, key);
    assert e - {key} == entries - {key};
    assert w[1..] == Without(l, key);
  }

  /** The last slot of the list, and where its stamp stands among the others. */
  lemma {:induction false} TiedLast<C>(entries: Entries<C>, l: Recent<C>, top: int)
    requires Tied(entries, l, top) && l != [] && top <= U64_MAX
    ensures var last := l[|l| - 1].key;
            && last in entries && Tied(entries - {last}, l[..|l| - 1], top) && entries[last].lastUsed <= top
            && (forall o | o in entries && o != last ::
                  if entries[last].lastUsed == U64_MAX then entries[o].lastUsed == U64_MAX
                  else entries[last].lastUsed < entries[o].lastUsed)
    decreases |l|
  {
    var k, last := l[0].key, l[|l| - 1].key;
    var rest := entries - {k};
    if |l| == 1 {
      assert rest == map[] && l[1..] == [];
      assert forall o | o in entries :: o == k || o in rest;
    } else {
      var below := Below(entries[k].lastUsed);
      TiedLast(rest, l[1..], below);
      assert l[1..][|l| - 2] == l[|l| - 1];
      assert l[..|l| - 1][1..] == l[1..][..|l| - 2];
      assert rest - {last} == (entries - {last}) - {k};
      forall o | o in entries && o != last
        ensures if entries[last].lastUsed == U64_MAX then entries[o].lastUsed == U64_MAX
                else entries[last].lastUsed < entries[o].lastUsed
      {
        assert o == k || o in rest;
      }
    }
  }

  /** The victim is the last slot if and only if its stamp is below the saturated tick, or its
      key is the least of all (all the others being stamped with that tick too). */
  ghost predicate LastGoes<C>(entries: Entries<C>, l: Recent<C>)
  {
    l != [] &&
    var last := l[|l| - 1].key;
    last in entries && (entries[last].lastUsed < U64_MAX || forall o | o in entries && o != last :: Less(last, o))
  }

  lemma TiedVictim<C(!new)>(entries: Entries<C>, l: Recent<C>)
    requires Tied(entries, l, U64_MAX) && l != []
    ensures entries != map[] && l[|l| - 1].key in entries
    ensures Victim(entries) == l[|l| - 1].key <==> LastGoes(entries, l)
  {
    hide Less;
    TiedLast(entries, l, U64_MAX);
    var last := l[|l| - 1].key;
    if LastGoes(entries, l) { VictimIsUnique(entries, last); }
    if Victim(entries) == last && entries[last].lastUsed == U64_MAX {
      forall o | o in entries && o != last ensures Less(last, o) { assert Older(entries, last, o); }
    }
  }

  lemma {:induction false} WithoutShrinks<C>(l: Recent<C>, key: string)
    ensures |Without(l, key)| == |l| - (if Find(l, key).Some? then 1 else 0)
  {
    if l != [] && l[0].key != key { WithoutShrinks(l[1..], key); }
  }

  /** The cache and the list hold the same corpora under the same keys. */
  ghost predicate Agrees<C(!new)>(c: Cache<C>, l: Recent<C>)
  {
    forall key :: Find(l, key) == if key in c.entries then Some(c.entries[key].corpus) else None
  }

  /** An eviction at the saturated tick takes the last slot of the list. */
  ghost predicate EvictionMeets<C>(c: Cache<C>, l: Recent<C>, capacity: nat, op: Op<C>)
  {
    c.tick == U64_MAX && op.InsertOp? && op.key !in c.entries && |l| == capacity ==>
      LastGoes(c.entries[op.key := Entry(op.corpus, U64_MAX)], [Slot(op.key, op.corpus)] + l)
  }

  /** A full cache and the list with one slot too many: the eviction takes the last slot, or the
      cache keeps that and the list does not. */
  lemma SaturatedEviction<C(!new)>(e: Entries<C>, w: Recent<C>, tick: nat)
    requires Tied(e, w, U64_MAX) && w != []
    ensures var d, m := Evict(e, |w| - 1), w[..|w| - 1];
            if LastGoes(e, w) then Tied(d, m, U64_MAX) else !Agrees(Cache(d, tick), m)
  {
    hide Less, Find, LastGoes;
    var last, shorter := w[|w| - 1].key, w[..|w| - 1];
    TiedCount(e, w, U64_MAX);
    TiedLast(e, w, U64_MAX);
    TiedVictim(e, w);
    var victim := Victim(e);
    assert |e - {victim}| == |w| - 1 by { assert e.Keys == (e - {victim}).Keys + {victim}; }
    assert Evict(e, |w| - 1) == e - {victim};
    TiedFind(e - {last}, shorter, U64_MAX, last);
    assert victim != last ==> last in e - {victim};
  }

  lemma SaturatedInsert<C(!new)>(c: Cache<C>, l: Recent<C>, capacity: nat, key: string, corpus: C)
    requires c.tick == U64_MAX && Tied(c.entries, l, U64_MAX) && |l| <= capacity
    ensures var d, m := Insert(c, capacity, key, corpus), ListInsert(l, capacity, key, corpus);
            if EvictionMeets(c, l, capacity, InsertOp(key, corpus)) then Tied(d.entries, m, U64_MAX) else !Agrees(d, m)
  {
    hide Less, Find, Without, Tied, Agrees, LastGoes, Victim;
    var e, w := c.entries[key := Entry(corpus, U64_MAX)], [Slot(key, corpus)] + Without(l, key);
    TiedFind(c.entries, l, U64_MAX, key);
    WithoutShrinks(l, key);
    TiedFront(c.entries, l, key, corpus);
    TiedCount(e, w, U64_MAX);
    if key !in c.entries && |l| == capacity {
      SaturatedEviction(e, w, U64_MAX);
      assert Take(w, capacity) == w[..|w| - 1];
    }
  }

  /** The state of cache and list while they go together: strictly falling stamps below the
      saturated tick, ties at it. */
  ghost predicate Matched<C>(c: Cache<C>, l: Recent<C>, capacity: nat)
  {
    && |l| <= capacity && c.tick <= U64_MAX
    && if c.tick < U64_MAX then Represents(c, l) else Tied(c.entries, l, U64_MAX)
  }

  lemma MatchedAgrees<C(!new)>(c: Cache<C>, l: Recent<C>, capacity: nat)
    requires Matched(c, l, capacity)
    ensures Agrees(c, l)
  {
    hide Find, Holds, Tied;
    forall key ensures Find(l, key) == if key in c.entries then Some(c.entries[key].corpus) else None {
      if c.tick < U64_MAX { HoldsFind(c.entries, l, c.tick, key); } else { TiedFind(c.entries, l, U64_MAX, key); }
    }
  }

  lemma ListStaysShort<C>(l: Recent<C>, capacity: nat, op: Op<C>)
    requires |l| <= capacity
    ensures |ListStep(l, capacity, op).0| <= capacity
  {
    hide Without, Find;
    if op.GetOp? { WithoutShrinks(l, op.key); }
  }

  /** One operation answers alike; it goes on together if its eviction, if any, takes the last
      slot of the list, and ends the agreement if not. */
  lemma MatchedStep<C(!new)>(c: Cache<C>, l: Recent<C>, capacity: nat, op: Op<C>)
    requires Matched(c, l, capacity)
    ensures var d, m := Step(c, capacity, op), ListStep(l, capacity, op);
            && d.1 == m.1
            && if EvictionMeets(c, l, capacity, op) then Matched(d.0, m.0, capacity) else !Agrees(d.0, m.0)
  {
    ListStaysShort(l, capacity, op);
    if c.tick < U64_MAX || op.ClearOp? {
      hide EvictionMeets, Agrees, Holds, Tied;
      if c.tick < U64_MAX {
        StepIsMoveToFront(c, l, capacity, op);
      } else {
        NothingHeld<C>();
      }
      StaysMatched(c, l, capacity, op);
    } else if op.GetOp? {
      hide Agrees;
      TiedFind(c.entries, l, U64_MAX, op.key);
      if op.key in c.entries { TiedFront(c.entries, l, op.key, c.entries[op.key].corpus); }
    } else {
      hide EvictionMeets, Agrees;
      SaturatedInsert(c, l, capacity, op.key, op.corpus);
    }
  }

  lemma NothingHeld<C>()
    ensures Represents(Empty<C>(), [])
  {
  }

  lemma StaysMatched<C(!new)>(c: Cache<C>, l: Recent<C>, capacity: nat, op: Op<C>)
    requires c.tick < U64_MAX || op.ClearOp?
    requires var d, m := Step(c, capacity, op), ListStep(l, capacity, op);
             Represents(d.0, m.0) && |m.0| <= capacity && d.0.tick == if op.ClearOp? then 0 else c.tick + 1
    ensures EvictionMeets(c, l, capacity, op) && Matched(Step(c, capacity, op).0, ListStep(l, capacity, op).0, capacity)
  {
    hide Holds, Tied, Step, ListStep;
    var d, m := Step(c, capacity, op).0, ListStep(l, capacity, op).0;
    HoldsIsTied(d.entries, m, d.tick);
  }

  /** Along the run every eviction at the saturated tick takes the last slot of the list. */
  ghost predicate EvictionsMeet<C(!new)>(c: Cache<C>, l: Recent<C>, capacity: nat, ops: seq<Op<C>>)
    decreases |ops|
  {
    ops == [] ||
    (&& EvictionMeets(c, l, capacity, ops[0])
     && EvictionsMeet(Step(c, capacity, ops[0]).0, ListStep(l, capacity, ops[0]).0, capacity, ops[1..]))
  }

  ghost predicate AgreesAfter<C(!new)>(c: Cache<C>, l: Recent<C>, capacity: nat, ops: seq<Op<C>>, n: nat)
    requires n <= |ops|
  {
    Agrees(Run(c, capacity, ops[..n]).0, ListRun(l, capacity, ops[..n]).0)
  }

  ghost predicate AlwaysAgrees<C(!new)>(c: Cache<C>, l: Recent<C>, capacity: nat, ops: seq<Op<C>>)
  {
    forall n | 0 <= n <= |ops| :: AgreesAfter(c, l, capacity, ops, n)
  }

  lemma AlwaysAgreesParts<C(!new)>(c: Cache<C>, l: Recent<C>, capacity: nat, ops: seq<Op<C>>)
    requires ops != []
    ensures AlwaysAgrees(c, l, capacity, ops) <==>
            && Agrees(c, l)
            && AlwaysAgrees(Step(c, capacity, ops[0]).0, ListStep(l, capacity, ops[0]).0, capacity, ops[1..])
  {
    hide Step, ListStep, Agrees;
    var d, m, rest := Step(c, capacity, ops[0]).0, ListStep(l, capacity, ops[0]).0, ops[1..];
    assert ops[..0] == [];
    assert AgreesAfter(c, l, capacity, ops, 0) == Agrees(c, l);
    forall n | 0 <= n <= |rest|
      ensures AgreesAfter(c, l, capacity, ops, n + 1) == AgreesAfter(d, m, capacity, rest, n)
    {
      assert ops[..n + 1][1..] == rest[..n] && ops[..n + 1][0] == ops[0];
    }
    if AlwaysAgrees(d, m, capacity, rest) && Agrees(c, l) {
      forall n | 0 <= n <= |ops| ensures AgreesAfter(c, l, capacity, ops, n) {
        if n > 0 { assert AgreesAfter(d, m, capacity, rest, n - 1); }
      }
    }
  }

  lemma {:induction false} MatchedRun<C(!new)>(c: Cache<C>, l: Recent<C>, capacity: nat, ops: seq<Op<C>>)
    requires Matched(c, l, capacity)
    ensures AlwaysAgrees(c, l, capacity, ops) <==> EvictionsMeet(c, l, capacity, ops)
    ensures EvictionsMeet(c, l, capacity, ops) ==> Run(c, capacity, ops).1 == ListRun(l, capacity, ops).1
    decreases |ops|
  {
    hide Step, ListStep, Matched, EvictionMeets, AlwaysAgrees, Agrees;
    MatchedAgrees(c, l, capacity);
    if ops == [] {
      NoOpsAgree(c, l, capacity);
    } else {
      var d, m := Step(c, capacity, ops[0]).0, ListStep(l, capacity, ops[0]).0;
      AlwaysAgreesParts(c, l, capacity, ops);
      MatchedStep(c, l, capacity, ops[0]);
      if EvictionMeets(c, l, capacity, ops[0]) {
        MatchedRun(d, m, capacity, ops[1..]);
      } else if AlwaysAgrees(d, m, capacity, ops[1..]) {
        AgreesAtOnce(d, m, capacity, ops[1..]);
      }
    }
  }

  lemma NoOpsAgree<C(!new)>(c: Cache<C>, l: Recent<C>, capacity: nat)
    requires Agrees(c, l)
    ensures AlwaysAgrees(c, l, capacity, [])
  {
    var none: seq<Op<C>> := [];
    assert none[..0] == none;
  }

  lemma AgreesAtOnce<C(!new)>(c: Cache<C>, l: Recent<C>, capacity: nat, ops: seq<Op<C>>)
    requires AlwaysAgrees(c, l, capacity, ops)
    ensures Agrees(c, l)
  {
    assert ops[..0] == [];
    assert AgreesAfter(c, l, capacity, ops, 0);
  }

  /** Any sequence of operations from the empty cache, through saturation, with any capacity:
      the cache agrees with the list after every prefix if and only if every eviction at the
      saturated tick takes the last slot of the list; and then all answers agree too. */
  lemma AgreesIffEvictionsMeet<C(!new)>(capacity: nat, ops: seq<Op<C>>)
    ensures AlwaysAgrees(Empty<C>(), [], capacity, ops) <==> EvictionsMeet(Empty<C>(), [], capacity, ops)
    ensures EvictionsMeet(Empty<C>(), [], capacity, ops) ==>
              Run(Empty<C>(), capacity, ops).1 == ListRun<C>([], capacity, ops).1
  {
    NothingHeld<C>();
    MatchedRun(Empty<C>(), [], capacity, ops);
  }

  // ---------------------------------------------------------------- a run that gets there

  lemma {:induction false} RunSplit<C(!new)>(c: Cache<C>, capacity: nat, a: seq<Op<C>>, b: seq<Op<C>>)
    ensures Run(c, capacity, a + b).0 == Run(Run(c, capacity, a).0, capacity, b).0
    decreases |a|
  {
    hide Step;
    if a == [] {
      assert a + b == b;
    } else {
      assert (a + b)[1..] == a[1..] + b;
      RunSplit(Step(c, capacity, a[0]).0, capacity, a[1..], b);
    }
  }

  lemma {:induction false} ListRunSplit<C>(l: Recent<C>, capacity: nat, a: seq<Op<C>>, b: seq<Op<C>>)
    ensures ListRun(l, capacity, a + b).0 == ListRun(ListRun(l, capacity, a).0, capacity, b).0
    decreases |a|
  {
    hide ListStep;
    if a == [] {
      assert a + b == b;
    } else {
      assert (a + b)[1..] == a[1..] + b;
      ListRunSplit(ListStep(l, capacity, a[0]).0, capacity, a[1..], b);
    }
  }

  function EmptyAt<C>(tick: nat): Cache<C>
  {
    Cache(map[], tick)
  }

  function Misses<C>(n: nat): seq<Op<C>>
  {
    if n == 0 then [] else [GetOp("a")] + Misses(n - 1)
  }

  lemma {:induction false} MissesTick<C(!new)>(tick: nat, capacity: nat, n: nat)
    requires tick + n <= U64_MAX
    ensures Run(EmptyAt<C>(tick), capacity, Misses(n)).0 == Cache(map[], tick + n)
    decreases n
  {
    if n > 0 {
      assert Misses<C>(n)[1..] == Misses<C>(n - 1);
      MissesTick<C>(tick + 1, capacity, n - 1);
    }
  }

  function Bees(n: nat): (s: string)
    ensures |s| == n && forall i | 0 <= i < n :: s[i] == 'b'
  {
    if n == 0 then "" else Bees(n - 1) + "b"
  }

  function Fill<C>(n: nat, corpus: C): seq<Op<C>>
  {
    if n == 0 then [] else Fill(n - 1, corpus) + [InsertOp(Bees(n), corpus)]
  }

  /** Only saturated stamps, under keys b, bb, bbb, ... */
  ghost predicate Filled<C>(c: Cache<C>, n: nat)
  {
    && c.tick == U64_MAX && |c.entries| == n
    && forall k | k in c.entries :: 1 <= |k| <= n && k[0] == 'b' && c.entries[k].lastUsed == U64_MAX
  }

  lemma {:induction false} FillFills<C(!new)>(n: nat, capacity: nat, corpus: C)
    requires n <= capacity
    ensures Filled(Run(EmptyAt<C>(U64_MAX), capacity, Fill(n, corpus)).0, n)
  {
    if n > 0 {
      FillFills(n - 1, capacity, corpus);
      var c := Run(EmptyAt<C>(U64_MAX), capacity, Fill(n - 1, corpus)).0;
      RunSplit(EmptyAt<C>(U64_MAX), capacity, Fill(n - 1, corpus), [InsertOp(Bees(n), corpus)]);
      JustInsert(c, capacity, Bees(n), corpus);
      assert Bees(n) !in c.entries;
      assert |c.entries[Bees(n) := Entry(corpus, U64_MAX)]| == n;
    }
  }

  lemma JustInsert<C(!new)>(c: Cache<C>, capacity: nat, key: string, corpus: C)
    ensures Run(c, capacity, [InsertOp(key, corpus)]).0 == Insert(c, capacity, key, corpus)
  {
    assert [InsertOp(key, corpus)][1..] == [];
  }

  lemma JustListInsert<C>(l: Recent<C>, capacity: nat, key: string, corpus: C)
    ensures ListRun(l, capacity, [InsertOp(key, corpus)]).0 == ListInsert(l, capacity, key, corpus)
  {
    assert [InsertOp(key, corpus)][1..] == [];
  }

  /** At the capacity of the engine's cache, from the empty cache: run the tick up with misses,
      fill the cache, and insert a key less than all: it is itself evicted at once, where the
      list keeps it. */
  lemma SaturatedEvictsNewest<C(!new)>(stale: C, fresher: C)
    ensures var ops := Misses<C>(U64_MAX) + Fill(DEFAULT_CAPACITY, stale) + [InsertOp("a", fresher)];
            && "a" !in Run(Empty<C>(), DEFAULT_CAPACITY, ops).0.entries
            && Find(ListRun<C>([], DEFAULT_CAPACITY, ops).0, "a") == Some(fresher)
  {
    hide Run, ListRun, Misses, Fill;
    var n, up, fill, last := DEFAULT_CAPACITY, Misses<C>(U64_MAX), Fill(DEFAULT_CAPACITY, stale),
        [InsertOp("a", fresher)];
    MissesTick<C>(0, n, U64_MAX);
    RunSplit(Empty<C>(), n, up, fill);
    RunSplit(Empty<C>(), n, up + fill, last);
    FillFills(n, n, stale);
    var c := Run(EmptyAt<C>(U64_MAX), n, fill).0;
    JustInsert(c, n, "a", fresher);
    ListRunSplit<C>([], n, up + fill, last);
    JustListInsert(ListRun<C>([], n, up + fill).0, n, "a", fresher);
    LeastIsEvicted(c, n, fresher);
  }

  lemma LeastIsEvicted<C(!new)>(c: Cache<C>, capacity: nat, corpus: C)
    requires Filled(c, capacity)
    ensures "a" !in Insert(c, capacity, "a", corpus).entries
  {
    var e := c.entries["a" := Entry(corpus, U64_MAX)];
    assert "a" !in c.entries;
    forall o | o in e ensures o == "a" || Older(e, "a", o) {
      if o != "a" { assert o[0] == 'b' && Less("a", o); }
    }
    VictimIsUnique(e, "a");
    EvictedIsGone(e - {"a"}, capacity, "a");
  }
}
