/** Vector search over one field of an index artifact: the brute-force reference, the
    graph search with its exact fallback, and the legacy greedy search
    (crates/tracedb-index/src/lib.rs). */
module VectorSearch {
  import opened Ordering
  import opened Hnsw
  import opened HnswBuild

  datatype VectorScore = VectorScore(recordId: string, versionId: nat, score: real)

  datatype Report =
    Report(scores: seq<VectorScore>, fieldEntryCount: nat, visitedCount: nat, exactFallbackUsed: bool)

  /** `None` allows every record version. */
  type Allowed = Option<set<Key>>

  const DEFAULT_M: nat := 16
  const DEFAULT_EF_CONSTRUCTION: nat := 64
  const DEFAULT_EF_SEARCH: nat := 64

  // ---------------------------------------------------------------- scores

  predicate IsAllowed(allowed: Allowed, k: Key)
  {
    allowed.Some? ==> k in allowed.value
  }

  function IdOf(s: VectorScore): Key { Key(s.recordId, s.versionId) }

  /** Higher score first, then record id, then version. */
  predicate ScoreBefore(a: VectorScore, b: VectorScore)
  {
    a.score > b.score || (a.score == b.score && IdBefore(IdOf(a), IdOf(b)))
  }

  lemma ScoreBeforeIsTotal(s: set<VectorScore>)
    ensures TotalOn(ScoreBefore, s)
  {
    forall x, y | x in s && y in s
      ensures !ScoreBefore(x, x) && (x != y ==> ScoreBefore(x, y) || ScoreBefore(y, x))
    {
      IdBeforeTotal(IdOf(x), IdOf(y));
    }
    forall x, y, z | x in s && y in s && z in s && ScoreBefore(x, y) && ScoreBefore(y, z)
      ensures ScoreBefore(x, z)
    {
      if x.score == y.score == z.score { IdBeforeTransitive(IdOf(x), IdOf(y), IdOf(z)); }
    }
  }

  /** The scores of those of `ks` that have a score and are allowed. */
  function Scored(f: Field, q: Vector, ks: set<Key>, allowed: Allowed): set<VectorScore>
  {
    set k | k in ks && Score(f, q, k).Some? && IsAllowed(allowed, k) ::
      VectorScore(k.recordId, k.versionId, Score(f, q, k).value)
  }

  function Ranked(s: set<VectorScore>, limit: nat): (r: seq<VectorScore>)
    ensures |r| <= limit
  {
    ScoreBeforeIsTotal(s);
    Take(SortedBy(ScoreBefore, s), limit)
  }

  /** The brute-force answer. */
  function Exact(f: Field, q: Vector, limit: nat, allowed: Allowed): (r: seq<VectorScore>)
    ensures |r| <= limit
  {
    Ranked(Scored(f, q, f.vectors.Keys, allowed), limit)
  }

  /** A ranking holds different scores of `s`, best first, and whatever it leaves out
      comes after everything it holds and is left out for want of room only. */
  lemma RankedIsTop(s: set<VectorScore>, limit: nat)
    ensures var r := Ranked(s, limit);
            && Ascending(ScoreBefore, r) && NoDuplicates(r) && Elements(r) <= s
            && (forall x, y | x in s && x !in r && y in r :: ScoreBefore(y, x))
            && (|r| < limit ==> Elements(r) == s)
  {
    ScoreBeforeIsTotal(s);
    var all, r := SortedBy(ScoreBefore, s), Ranked(s, limit);
    SortedByAscends(ScoreBefore, s);
    forall x | x in r ensures x in s { assert x in Elements(all); }
    forall x, y | x in s && x !in r && y in r ensures ScoreBefore(y, x) {
      assert x in Elements(all);
      var i :| 0 <= i < |all| && all[i] == x;
      var j :| 0 <= j < |r| && r[j] == y;
      assert r[j] == all[j];
      assert i >= |r|;
    }
  }

  // ---------------------------------------------------------------- graph search

  /** What the single-candidate searches of the levels `hi` down to 1 visit. */
  function UpperVisits(f: Field, g: Graph, q: Vector, start: Key, hi: nat): (r: set<Key>)
    ensures r <= f.vectors.Keys
    decreases hi
  {
    if hi == 0 then {} else
    var found := SearchLayer(f, LayerAt(g, hi), q, {start}, 1);
    var next := if found == [] then start else found[0];
    Visits(f, LayerAt(g, hi), q, {start}, 1) + UpperVisits(f, g, q, next, hi - 1)
  }

  /** The stored keys compare as text. */
  function TextOrder(field: string): (Key, Key) -> bool
  {
    (a, b) => Less(KeyText(field, a), KeyText(field, b))
  }

  lemma TextOrderIsTotal(field: string, s: set<Key>)
    ensures TotalOn(TextOrder(field), s)
  {
    hide Less, KeyText;
    var lt := TextOrder(field);
    forall x, y | x in s && y in s
      ensures !lt(x, x) && (x != y ==> lt(x, y) || lt(y, x))
    {
      LessIrreflexive(KeyText(field, x));
      LessTotal(KeyText(field, x), KeyText(field, y));
      if KeyText(field, x) == KeyText(field, y) { KeyTextInjective(field, x, y); }
    }
    forall x, y, z | x in s && y in s && z in s && lt(x, y) && lt(y, z)
      ensures lt(x, z)
    {
      LessTransitive(KeyText(field, x), KeyText(field, y), KeyText(field, z));
    }
  }

  /** The first key of a non-empty set in stored order. */
  function FirstKey(field: string, s: set<Key>): (k: Key)
    requires s != {}
    ensures k in s
  {
    TextOrderIsTotal(field, s);
    LeastBy(TextOrder(field), s)
  }

  function AllowedCount(f: Field, allowed: Allowed): nat
  {
    if allowed.Some? then |allowed.value| else |f.vectors|
  }

  /** The beam of the ground-level search. */
  function EfSearch(f: Field, efSearch: nat, limit: nat, allowed: Allowed): nat
  {
    var n := |f.vectors|;
    Max(Min(Max(Max(efSearch, 4 * limit), Min(Min(AllowedCount(f, allowed), n), DEFAULT_EF_SEARCH)), n), 1)
  }

  predicate Usable(f: Field, graph: Option<Graph>)
  {
    graph.Some? && graph.value.entryPoint.Some? && graph.value.entryPoint.value in f.vectors
  }

  function GroundStarts(field: string, f: Field, g: Graph, q: Vector): set<Key>
    requires Usable(f, Some(g))
  {
    {Descend(f, g, q, g.entryPoint.value, g.maxLevel, 1), FirstKey(field, f.vectors.Keys)}
  }

  /** The keys the ground-level search visits. */
  function GroundVisits(field: string, f: Field, g: Graph, q: Vector, ef: nat): set<Key>
    requires Usable(f, Some(g))
  {
    Visits(f, LayerAt(g, 0), q, GroundStarts(field, f, g, q), ef)
  }

  function SearchHnsw(field: string, f: Field, graph: Option<Graph>, q: Vector, limit: nat, allowed: Allowed,
                      efSearch: nat): (r: Report)
  {
    var n := |f.vectors|;
    if !Usable(f, graph) then Report(Exact(f, q, limit, allowed), n, 0, true) else
    var g := graph.value;
    var ground := GroundVisits(field, f, g, q, EfSearch(f, efSearch, limit, allowed));
    var visited := UpperVisits(f, g, q, g.entryPoint.value, g.maxLevel) + ground;
    var scores := Ranked(Scored(f, q, ground, allowed), limit);
    if |scores| < limit && AllowedCount(f, allowed) > |scores| && |visited| < n
    then Report(Exact(f, q, limit, allowed), n, |visited|, true)
    else Report(scores, n, |visited|, false)
  }

  /** Whatever the graph holds, the answer is duplicate-free, in order, within the limit,
      and made of true scores of allowed entries. */
  lemma SearchIsSound(field: string, f: Field, graph: Option<Graph>, q: Vector, limit: nat, allowed: Allowed,
                      efSearch: nat)
    ensures var r := SearchHnsw(field, f, graph, q, limit, allowed, efSearch);
            && Ascending(ScoreBefore, r.scores) && NoDuplicates(r.scores) && |r.scores| <= limit
            && Elements(r.scores) <= Scored(f, q, f.vectors.Keys, allowed)
  {
    hide Ascending, NoDuplicates, Ranked, GroundVisits, UpperVisits, EfSearch;
    RankedIsTop(Scored(f, q, f.vectors.Keys, allowed), limit);
    if Usable(f, graph) {
      var ground := GroundVisits(field, f, graph.value, q, EfSearch(f, efSearch, limit, allowed));
      RankedIsTop(Scored(f, q, ground, allowed), limit);
    }
  }

  /** Whatever the graph holds, the answer is the brute-force one whenever the fallback
      is reported or the ground level was visited whole. */
  lemma SearchIsExactWhenWhole(field: string, f: Field, graph: Option<Graph>, q: Vector, limit: nat, allowed: Allowed,
                               efSearch: nat)
    ensures var r := SearchHnsw(field, f, graph, q, limit, allowed, efSearch);
            r.exactFallbackUsed
            || GroundVisits(field, f, graph.value, q, EfSearch(f, efSearch, limit, allowed)) == f.vectors.Keys
            ==> r.scores == Exact(f, q, limit, allowed)
  {
    hide GroundVisits, UpperVisits, EfSearch, Ranked, Scored;
  }

  /** Every key of the field can be reached from `starts` along the layer's edges. */
  ghost predicate Connected(f: Field, layer: Layer, starts: set<Key>)
  {
    forall s: set<Key> | starts <= s <= f.vectors.Keys && Closed(f, layer, s) :: s == f.vectors.Keys
  }

  ghost predicate Closed(f: Field, layer: Layer, s: set<Key>)
  {
    forall k | k in s :: Neighbours(f, layer, k) <= s
  }

  lemma VisitsAreClosed(f: Field, layer: Layer, q: Vector, starts: set<Key>, ef: nat)
    requires starts <= f.vectors.Keys
    ensures var r := Visits(f, layer, q, starts, ef);
            |r| >= Budget(f, ef) || (starts <= r && Closed(f, layer, r))
  {
    assert starts * f.vectors.Keys == starts;
    ExploreStops(f, layer, q, {}, starts, Budget(f, ef));
  }

  /** A walk whose budget covers the field visits everything it can reach, so on a
      connected ground level the answer is the brute-force one. */
  lemma ConnectedSearchIsExact(field: string, f: Field, g: Graph, q: Vector, limit: nat, allowed: Allowed,
                               efSearch: nat)
    requires Usable(f, Some(g)) && Connected(f, LayerAt(g, 0), GroundStarts(field, f, g, q))
    requires |f.vectors| <= EfSearch(f, efSearch, limit, allowed)
    ensures SearchHnsw(field, f, Some(g), q, limit, allowed, efSearch).scores == Exact(f, q, limit, allowed)
  {
    hide EfSearch, UpperVisits, Exact, SearchHnsw, Explore, FirstKey, Descend;
    var ef, starts := EfSearch(f, efSearch, limit, allowed), GroundStarts(field, f, g, q);
    var ground := GroundVisits(field, f, g, q, ef);
    DescendStaysPut(f, g, q, g.entryPoint.value, g.maxLevel, 1);
    assert starts * f.vectors.Keys == starts;
    VisitsAreClosed(f, LayerAt(g, 0), q, starts, ef);
    SubsetCount(ground, f.vectors.Keys);
    SearchIsExactWhenWhole(field, f, Some(g), q, limit, allowed, efSearch);
  }

  lemma CompleteIsConnected(f: Field, layer: Layer, starts: set<Key>)
    requires layer.Keys == f.vectors.Keys && Complete(layer) && starts != {}
    ensures Connected(f, layer, starts)
  {
    forall s: set<Key> | starts <= s <= f.vectors.Keys && Closed(f, layer, s)
      ensures s == f.vectors.Keys
    {
      var a :| a in starts;
      forall k | k in f.vectors ensures k in s {
        assert k == a || k in Neighbours(f, layer, a);
      }
    }
  }

  // ---------------------------------------------------------------- the index

  /** The index of one field, as built with the default parameters. */
  function BuiltGraph(f: Field, level: Key -> nat): Graph
  {
    Build(f, level, DEFAULT_M, DEFAULT_EF_CONSTRUCTION)
  }

  function SearchField(field: string, f: Field, graph: Option<Graph>, q: Vector, limit: nat, allowed: Allowed,
                       efSearch: nat): Report
  {
    if limit == 0 || f.vectors == map[] then Report([], 0, 0, false)
    else SearchHnsw(field, f, graph, q, limit, allowed, efSearch)
  }

  /** A field of at most 33 vectors is searched exactly: for every assignment of levels,
      query, limit and allowed set, graph search over the graph as built gives the
      brute-force answer. */
  lemma SmallFieldSearchIsExact(field: string, f: Field, level: Key -> nat, q: Vector, limit: nat, allowed: Allowed)
    requires |f.vectors| <= 2 * DEFAULT_M + 1
    ensures SearchField(field, f, Some(BuiltGraph(f, level)), q, limit, allowed, DEFAULT_EF_SEARCH).scores
         == Exact(f, q, limit, allowed)
  {
    hide Build, SearchHnsw, LayerAt, Complete, LayersOk, Scored, Ranked, GroundStarts;
    if f.vectors == map[] {
      NothingToFind(f, q, limit, allowed);
    } else if limit > 0 {
      var g := BuiltGraph(f, level);
      BuildOk(f, level, DEFAULT_M, DEFAULT_EF_CONSTRUCTION);
      WholeFieldOnGround(f, g, level, DEFAULT_M);
      StartsExist(field, f, g, q);
      CompleteIsConnected(f, LayerAt(g, 0), GroundStarts(field, f, g, q));
      ConnectedSearchIsExact(field, f, g, q, limit, allowed, DEFAULT_EF_SEARCH);
    }
  }

  lemma StartsExist(field: string, f: Field, g: Graph, q: Vector)
    requires Usable(f, Some(g))
    ensures GroundStarts(field, f, g, q) != {}
  {
    assert FirstKey(field, f.vectors.Keys) in GroundStarts(field, f, g, q);
  }

  lemma NothingToFind(f: Field, q: Vector, limit: nat, allowed: Allowed)
    requires f.vectors == map[]
    ensures Exact(f, q, limit, allowed) == []
  {
    assert Scored(f, q, f.vectors.Keys, allowed) == {};
  }

  lemma WholeFieldOnGround(f: Field, g: Graph, level: Key -> nat, m: nat)
    requires GraphOk(f, g, f.vectors.Keys, level, m) && f.vectors != map[]
    ensures Usable(f, Some(g)) && LayerAt(g, 0).Keys == f.vectors.Keys
  {
    hide LayersOk;
    assert AtLeast(f.vectors.Keys, level, 0) == f.vectors.Keys;
    var k :| k in f.vectors;
  }

  /** The loop over the upper levels. */
  method SearchUpperLevels(f: Field, g: Graph, q: Vector) returns (start: Key, visited: set<Key>)
    requires g.entryPoint.Some?
    ensures start == Descend(f, g, q, g.entryPoint.value, g.maxLevel, 1)
    ensures visited == UpperVisits(f, g, q, g.entryPoint.value, g.maxLevel)
  {
    hide SearchLayer, Visits, LayerAt;
    var level := g.maxLevel;
    start, visited := g.entryPoint.value, {};
    while level >= 1
      invariant Descend(f, g, q, start, level, 1) == Descend(f, g, q, g.entryPoint.value, g.maxLevel, 1)
      invariant visited + UpperVisits(f, g, q, start, level) == UpperVisits(f, g, q, g.entryPoint.value, g.maxLevel)
    {
      var found;
      found, visited := HnswSearchLayer(f, LayerAt(g, level), q, [start], 1, visited);
      assert Elements([start]) == {start};
      if found != [] { start := found[0]; }
      level := level - 1;
    }
  }

  /** The graph search as it runs. */
  method SearchHnswVectors(field: string, f: Field, graph: Option<Graph>, q: Vector, limit: nat, allowed: Allowed,
                           efSearch: nat)
    returns (r: Report)
    ensures r == SearchHnsw(field, f, graph, q, limit, allowed, efSearch)
  {
    hide SearchLayer, Visits, Scored, Ranked, LayerAt, Descend, UpperVisits, FirstKey, EfSearch, Exact;
    var n := |f.vectors|;
    if !Usable(f, graph) {
      return Report(Exact(f, q, limit, allowed), n, 0, true);
    }
    var g := graph.value;
    var start, visited := SearchUpperLevels(f, g, q);
    var starts := [start];
    var first := FirstKey(field, f.vectors.Keys);
    if first != start { starts := starts + [first]; }
    assert Elements(starts) == GroundStarts(field, f, g, q);
    var ef := EfSearch(f, efSearch, limit, allowed);
    SearchLayerKeepsAll(f, LayerAt(g, 0), q, Elements(starts), ef);
    var candidates;
    candidates, visited := HnswSearchLayer(f, LayerAt(g, 0), q, starts, ef, visited);
    var scores := Ranked(Scored(f, q, Elements(candidates), allowed), limit);
    if |scores| < limit && AllowedCount(f, allowed) > |scores| && |visited| < n {
      return Report(Exact(f, q, limit, allowed), n, |visited|, true);
    }
    return Report(scores, n, |visited|, false);
  }

  /** The legacy search walks record-id lists, but its answer is always the brute-force one. */
  method SearchLegacyGreedy(field: string, f: Field, neighbours: map<string, seq<string>>, q: Vector, limit: nat,
                            allowed: Allowed, efSearch: nat)
    returns (r: Report)
    requires f.vectors != map[]
    ensures r.scores == Exact(f, q, limit, allowed)
    ensures r.fieldEntryCount == |f.vectors| && 1 <= r.visitedCount <= Max(Min(Max(efSearch, limit), |f.vectors|), 1)
    ensures r.visitedCount < r.fieldEntryCount ==> r.exactFallbackUsed
  {
    hide Ranked, Less, FirstKey;
    var n := |f.vectors|;
    var target := Max(Min(Max(efSearch, limit), n), 1);
    var visited: set<Key> := {};
    var frontier := {FirstKey(field, f.vectors.Keys)};
    while |visited| < target && frontier != {}
      invariant visited <= f.vectors.Keys && frontier <= f.vectors.Keys && |visited| <= target
      invariant visited == {} ==> frontier != {}
      decreases f.vectors.Keys - visited, frontier
    {
      var key := Nearest(f, q, frontier);
      frontier := frontier - {key};
      if key !in visited {
        assert key in f.vectors.Keys - visited;
        visited := visited + {key};
        var near := if key.recordId in neighbours then neighbours[key.recordId] else [];
        frontier := frontier + (KeysOfRecords(field, f, near) - visited);
      }
    }
    var scores := Scored(f, q, visited, allowed);
    var fallback := false;
    if |visited| < n || |scores| < limit {
      fallback := true;
      scores := Scored(f, q, f.vectors.Keys, allowed);
    } else {
      SubsetCount(visited, f.vectors.Keys);
    }
    return Report(Ranked(scores, limit), n, |visited|, fallback);
  }

  /** For each record id its first key in stored order. */
  function KeysOfRecords(field: string, f: Field, ids: seq<string>): (s: set<Key>)
    ensures s <= f.vectors.Keys
  {
    set id | id in ids && VersionsOf(f, id) != {} :: FirstKey(field, VersionsOf(f, id))
  }

  function VersionsOf(f: Field, id: string): set<Key>
  {
    set k | k in f.vectors && k.recordId == id
  }
}
