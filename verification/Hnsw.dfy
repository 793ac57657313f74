/** The layered proximity graph over the vectors of one field
    (crates/tracedb-index/src/lib.rs) and the search of one layer. `HnswBuild` grows the
    graph, `VectorSearch` answers queries with it. */
module Hnsw {
  import opened Ordering
  import opened Decimal

  /** Within one field a key is a record and a version: the stored form
      "field NUL record NUL version" can be read back (`KeyTextInjective`). */
  datatype Key = Key(recordId: string, versionId: nat)

  type Vector = seq<real>
  type Similarity = (Vector, Vector) -> Option<real>

  /** The vectors of one field by key, and the similarity they are compared with. */
  datatype Field = Field(sim: Similarity, vectors: map<Key, Vector>)

  /** One level of the graph: the neighbour list of each node on it. */
  type Layer = map<Key, seq<Key>>

  datatype Graph = Graph(entryPoint: Option<Key>, maxLevel: nat, levels: map<nat, Layer>)

  function KeyText(field: string, k: Key): string
  {
    field + "\0" + k.recordId + "\0" + Dec(k.versionId)
  }

  lemma KeyTextInjective(field: string, a: Key, b: Key)
    requires KeyText(field, a) == KeyText(field, b)
    ensures a == b
  {
    var x, y := field + "\0" + a.recordId, field + "\0" + b.recordId;
    NumberedNameInjective(x, a.versionId, y, b.versionId, '\0');
    assert a.recordId == x[|field| + 1..] && b.recordId == y[|field| + 1..];
  }

  // ---------------------------------------------------------------- orders

  /** A missing similarity counts as minus infinity. */
  predicate Higher(a: Option<real>, b: Option<real>)
  {
    a.Some? && (b.None? || a.value > b.value)
  }

  /** Record id, then version: the order in which entries are inserted. */
  predicate IdBefore(a: Key, b: Key)
  {
    Less(a.recordId, b.recordId) || (a.recordId == b.recordId && a.versionId < b.versionId)
  }

  predicate RankBefore(s: Option<real>, a: Key, t: Option<real>, b: Key)
  {
    Higher(s, t) || (s == t && IdBefore(a, b))
  }

  function Score(f: Field, q: Vector, k: Key): Option<real>
  {
    if k in f.vectors then f.sim(q, f.vectors[k]) else None
  }

  /** Higher similarity to `q` first, then record id, then version. */
  function Nearer(f: Field, q: Vector): (lt: (Key, Key) -> bool)
  {
    (a, b) => RankBefore(Score(f, q, a), a, Score(f, q, b), b)
  }

  lemma IdBeforeTotal(a: Key, b: Key)
    ensures !IdBefore(a, a)
    ensures a == b || IdBefore(a, b) || IdBefore(b, a)
  {
    LessIrreflexive(a.recordId);
    LessTotal(a.recordId, b.recordId);
  }

  lemma IdBeforeTransitive(a: Key, b: Key, c: Key)
    requires IdBefore(a, b) && IdBefore(b, c)
    ensures IdBefore(a, c)
  {
    if Less(a.recordId, b.recordId) && Less(b.recordId, c.recordId) {
      LessTransitive(a.recordId, b.recordId, c.recordId);
    }
  }

  lemma IdBeforeIsTotal(s: set<Key>)
    ensures TotalOn(IdBefore, s)
  {
    forall x, y | x in s && y in s
      ensures !IdBefore(x, x) && (x != y ==> IdBefore(x, y) || IdBefore(y, x))
    {
      IdBeforeTotal(x, y);
    }
    forall x, y, z | x in s && y in s && z in s && IdBefore(x, y) && IdBefore(y, z)
      ensures IdBefore(x, z)
    {
      IdBeforeTransitive(x, y, z);
    }
  }

  lemma NearerIsTotal(f: Field, q: Vector, s: set<Key>)
    ensures TotalOn(Nearer(f, q), s)
  {
    var lt := Nearer(f, q);
    forall x, y | x in s && y in s
      ensures !lt(x, x) && (x != y ==> lt(x, y) || lt(y, x))
    {
      IdBeforeTotal(x, y);
    }
    forall x, y, z | x in s && y in s && z in s && lt(x, y) && lt(y, z)
      ensures lt(x, z)
    {
      if Score(f, q, x) == Score(f, q, y) == Score(f, q, z) { IdBeforeTransitive(x, y, z); }
    }
  }

  function Nearest(f: Field, q: Vector, s: set<Key>): (k: Key)
    requires s != {}
    ensures IsLeast(Nearer(f, q), s, k)
  {
    NearerIsTotal(f, q, s);
    LeastBy(Nearer(f, q), s)
  }

  function ByNearness(f: Field, q: Vector, s: set<Key>): (ks: seq<Key>)
    ensures Elements(ks) == s && |ks| == |s|
  {
    NearerIsTotal(f, q, s);
    SortedBy(Nearer(f, q), s)
  }

  function Max(a: nat, b: nat): nat { if a < b then b else a }
  function Min(a: nat, b: nat): nat { if a < b then a else b }

  // ---------------------------------------------------------------- search of one layer

  /** The neighbours of `k` on the layer that are entries of the field. */
  function Neighbours(f: Field, layer: Layer, k: Key): (s: set<Key>)
    ensures s <= f.vectors.Keys
  {
    if k in layer then set n | n in layer[k] && n in f.vectors else {}
  }

  /** Best-first walk: what a search that has visited `visited` and holds `frontier`
      will have visited when it stops. */
  function Explore(f: Field, layer: Layer, q: Vector, visited: set<Key>, frontier: set<Key>, budget: nat): (r: set<Key>)
    requires frontier <= f.vectors.Keys && visited <= f.vectors.Keys
    ensures visited <= r <= f.vectors.Keys
    decreases f.vectors.Keys - visited, frontier
  {
    if |visited| >= budget || frontier == {} then visited else
    var k := Nearest(f, q, frontier);
    if k in visited then Explore(f, layer, q, visited, frontier - {k}, budget)
    else
      assert k in f.vectors.Keys - visited;
      var seen := visited + {k};
      Explore(f, layer, q, seen, (frontier - {k}) + (Neighbours(f, layer, k) - seen), budget)
  }

  function Budget(f: Field, ef: nat): (b: nat)
    ensures 1 <= b <= Max(ef, 1)
  {
    Max(Min(Max(ef, 1), |f.vectors|), 1)
  }

  /** The set of keys a layer search visits. */
  function Visits(f: Field, layer: Layer, q: Vector, starts: set<Key>, ef: nat): (r: set<Key>)
    ensures r <= f.vectors.Keys
  {
    Explore(f, layer, q, {}, starts * f.vectors.Keys, Budget(f, ef))
  }

  /** The visited keys, nearest first, cut to `ef`. */
  function SearchLayer(f: Field, layer: Layer, q: Vector, starts: set<Key>, ef: nat): (out: seq<Key>)
    ensures |out| <= Max(ef, 1)
  {
    Take(ByNearness(f, q, Visits(f, layer, q, starts, ef)), Max(ef, 1))
  }

  /** The walk never overspends, and if it stops below budget it has exhausted
      everything it could reach: its result holds the frontier and is closed. */
  lemma {:induction false} ExploreStops(f: Field, layer: Layer, q: Vector, visited: set<Key>, frontier: set<Key>,
                                        budget: nat)
    requires frontier <= f.vectors.Keys && visited <= f.vectors.Keys
    requires |visited| <= budget
    requires forall k | k in visited :: Neighbours(f, layer, k) <= visited + frontier
    ensures var r := Explore(f, layer, q, visited, frontier, budget);
            && |r| <= budget
            && (|r| < budget ==> frontier <= r && forall k | k in r :: Neighbours(f, layer, k) <= r)
    decreases f.vectors.Keys - visited, frontier
  {
    if |visited| < budget && frontier != {} {
      var k := Nearest(f, q, frontier);
      if k in visited {
        ExploreStops(f, layer, q, visited, frontier - {k}, budget);
      } else {
        assert k in f.vectors.Keys - visited;
        var seen := visited + {k};
        ExploreStops(f, layer, q, seen, (frontier - {k}) + (Neighbours(f, layer, k) - seen), budget);
      }
    }
  }

  /** Everything visited is reached from the start: a set closed under the layer's
      edges that holds the frontier and the visited keys holds the result. */
  lemma {:induction false} ExploreStaysInside(f: Field, layer: Layer, q: Vector, visited: set<Key>, frontier: set<Key>,
                                              budget: nat, inside: set<Key>)
    requires frontier <= f.vectors.Keys && visited <= f.vectors.Keys
    requires visited + frontier <= inside
    requires forall k | k in inside :: Neighbours(f, layer, k) <= inside
    ensures Explore(f, layer, q, visited, frontier, budget) <= inside
    decreases f.vectors.Keys - visited, frontier
  {
    if |visited| < budget && frontier != {} {
      var k := Nearest(f, q, frontier);
      if k in visited {
        ExploreStaysInside(f, layer, q, visited, frontier - {k}, budget, inside);
      } else {
        assert k in f.vectors.Keys - visited;
        var seen := visited + {k};
        ExploreStaysInside(f, layer, q, seen, (frontier - {k}) + (Neighbours(f, layer, k) - seen), budget, inside);
      }
    }
  }

  /** The search returns every key it visited: the final cut never bites. */
  lemma SearchLayerKeepsAll(f: Field, layer: Layer, q: Vector, starts: set<Key>, ef: nat)
    ensures SearchLayer(f, layer, q, starts, ef) == ByNearness(f, q, Visits(f, layer, q, starts, ef))
    ensures Elements(SearchLayer(f, layer, q, starts, ef)) == Visits(f, layer, q, starts, ef)
  {
    ExploreStops(f, layer, q, {}, starts * f.vectors.Keys, Budget(f, ef));
  }

  /** With `ef` = 1 the search visits its single start and nothing else, so the
      descent through the upper layers always hands on the key it was given. */
  lemma SingleStepStaysPut(f: Field, layer: Layer, q: Vector, start: Key)
    requires start in f.vectors
    ensures SearchLayer(f, layer, q, {start}, 1) == [start]
  {
    hide ByNearness, Less, RankBefore;
    assert {start} * f.vectors.Keys == {start};
    ExploreStep(f, layer, q, {}, {start}, 1);
    assert Nearest(f, q, {start}) == start && {} + {start} == {start};
    SearchLayerKeepsAll(f, layer, q, {start}, 1);
    OneElement(SearchLayer(f, layer, q, {start}, 1), start);
  }

  /** One turn of the walk. */
  lemma ExploreStep(f: Field, layer: Layer, q: Vector, visited: set<Key>, frontier: set<Key>, budget: nat)
    requires frontier <= f.vectors.Keys && visited <= f.vectors.Keys
    requires |visited| < budget && frontier != {}
    ensures var k, rest := Nearest(f, q, frontier), frontier - {Nearest(f, q, frontier)};
            Explore(f, layer, q, visited, frontier, budget) ==
            if k in visited then Explore(f, layer, q, visited, rest, budget)
            else Explore(f, layer, q, visited + {k}, rest + (Neighbours(f, layer, k) - (visited + {k})), budget)
  {
  }

  lemma ExploreEnds(f: Field, layer: Layer, q: Vector, visited: set<Key>, frontier: set<Key>, budget: nat)
    requires frontier <= f.vectors.Keys && visited <= f.vectors.Keys
    requires |visited| >= budget || frontier == {}
    ensures Explore(f, layer, q, visited, frontier, budget) == visited
  {
  }

  /** The search loop itself: the frontier and the visited set are updated in place. */
  method HnswSearchLayer(f: Field, layer: Layer, q: Vector, starts: seq<Key>, ef: nat, visitedBefore: set<Key>)
    returns (out: seq<Key>, visitedAfter: set<Key>)
    ensures out == SearchLayer(f, layer, q, Elements(starts), ef)
    ensures visitedAfter == visitedBefore + Visits(f, layer, q, Elements(starts), ef)
  {
    hide Explore, ByNearness, Nearer, Neighbours;
    var visited: set<Key> := {};
    visitedAfter := visitedBefore;
    var frontier := Elements(starts) * f.vectors.Keys;
    var maxVisits := Budget(f, ef);
    while |visited| < maxVisits && frontier != {}
      invariant frontier <= f.vectors.Keys && visited <= f.vectors.Keys
      invariant visitedAfter == visitedBefore + visited
      invariant Explore(f, layer, q, visited, frontier, maxVisits) == Visits(f, layer, q, Elements(starts), ef)
      decreases f.vectors.Keys - visited, frontier
    {
      ExploreStep(f, layer, q, visited, frontier, maxVisits);
      var key := Nearest(f, q, frontier);
      frontier := frontier - {key};
      if key !in visited {
        assert key in f.vectors.Keys - visited;
        visited, visitedAfter := visited + {key}, visitedAfter + {key};
        frontier := frontier + (Neighbours(f, layer, key) - visited);
      }
    }
    ExploreEnds(f, layer, q, visited, frontier, maxVisits);
    out := Take(ByNearness(f, q, visited), Max(ef, 1));
  }
}
