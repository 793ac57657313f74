/** Growing the layered graph of one field, node by node, and what holds of every
    graph so grown (crates/tracedb-index/src/lib.rs, `build_hnsw_graphs`). */
module HnswBuild {
  import opened Ordering
  import opened Hnsw

  // ---------------------------------------------------------------- one layer

  function MForLevel(m: nat, level: nat): (r: nat)
    ensures r >= 1
  {
    if level == 0 then Max(2 * m, 1) else Max(m, 1)
  }

  function Links(layer: Layer, k: Key): seq<Key>
  {
    if k in layer then layer[k] else []
  }

  function EnsureNode(layer: Layer, k: Key): Layer
  {
    layer[k := Links(layer, k)]
  }

  function AddNeighbour(layer: Layer, k: Key, n: Key): Layer
  {
    layer[k := if n in Links(layer, k) then Links(layer, k) else Links(layer, k) + [n]]
  }

  /** Sort by nearness to `k`, drop repeats, cut to `m`. */
  function Prune(f: Field, layer: Layer, k: Key, m: nat): Layer
  {
    if k !in f.vectors || k !in layer then layer
    else layer[k := Take(ByNearness(f, f.vectors[k], Elements(layer[k])), m)]
  }

  function Link(f: Field, layer: Layer, left: Key, right: Key, m: nat): (r: Layer)
  {
    Prune(f, Prune(f, AddNeighbour(AddNeighbour(layer, left, right), right, left), left, m), right, m)
  }

  function LinkAll(f: Field, layer: Layer, key: Key, selected: seq<Key>, m: nat): (r: Layer)
    decreases |selected|
  {
    if selected == [] then layer else
    LinkAll(f, Link(f, layer, key, selected[0], m), key, selected[1..], m)
  }

  /** The `m` candidates nearest to `key`, itself excepted. */
  function Select(f: Field, key: Key, candidates: seq<Key>, m: nat): (r: seq<Key>)
    requires key in f.vectors
  {
    Take(ByNearness(f, f.vectors[key], set c | c in candidates && c != key && c in f.vectors), m)
  }

  function InsertInLayer(f: Field, layer: Layer, key: Key, start: Key, efConstruction: nat, m: nat): (r: Layer)
    requires key in f.vectors
  {
    var candidates := SearchLayer(f, layer, f.vectors[key], {start}, Max(efConstruction, 1));
    LinkAll(f, EnsureNode(layer, key), key, Select(f, key, candidates, m), m)
  }

  /** The neighbour of `key` nearest to it; `start` when it has none. */
  function NextStart(f: Field, layer: Layer, key: Key, start: Key): (k: Key)
    requires key in f.vectors
  {
    var ns := Neighbours(f, layer, key);
    if ns == {} then start else Nearest(f, f.vectors[key], ns)
  }

  /** A neighbour list joins `k` to other nodes of its layer, each once, at most `m` of them. */
  ghost predicate ListOk(nodes: set<Key>, k: Key, list: seq<Key>, m: nat)
  {
    NoDuplicates(list) && |list| <= m && Elements(list) <= nodes - {k}
  }

  ghost predicate LayerOk(f: Field, layer: Layer, m: nat)
  {
    layer.Keys <= f.vectors.Keys && forall k | k in layer :: ListOk(layer.Keys, k, layer[k], m)
  }

  ghost predicate Complete(layer: Layer)
  {
    forall a, b | a in layer && b in layer && a != b :: b in layer[a]
  }

  lemma CutIsDistinct(f: Field, q: Vector, s: set<Key>, m: nat)
    ensures var r := Take(ByNearness(f, q, s), m);
            && NoDuplicates(r) && |r| <= m && Elements(r) <= s
            && (|s| <= m ==> Elements(r) == s)
            && (s != {} && m >= 1 ==> Elements(r) != {})
  {
    var all := ByNearness(f, q, s);
    NearerIsTotal(f, q, s);
    SortedByAscends(Nearer(f, q), s);
    forall x | x in Take(all, m) ensures x in s {
      assert x in Elements(all);
    }
    NoElements(Take(all, m));
  }

  /** The list of `k` once `n` has joined it and it has been pruned. */
  function Joined(f: Field, k: Key, list: seq<Key>, n: Key, m: nat): (r: seq<Key>)
    requires k in f.vectors
  {
    Take(ByNearness(f, f.vectors[k], Elements(list) + {n}), m)
  }

  lemma AddedElements(list: seq<Key>, n: Key)
    ensures Elements(if n in list then list else list + [n]) == Elements(list) + {n}
  {
  }

  lemma OverwriteTwice(layer: Layer, l: Key, r: Key, x: seq<Key>, y: seq<Key>, u: seq<Key>, v: seq<Key>)
    requires l != r
    ensures layer[l := x][r := y][l := u][r := v] == layer[l := u][r := v]
  {
  }

  lemma PruneAfterAdd(f: Field, layer: Layer, k: Key, list: seq<Key>, n: Key, m: nat)
    requires k in layer && k in f.vectors
    requires layer[k] == if n in list then list else list + [n]
    ensures Prune(f, layer, k, m) == layer[k := Joined(f, k, list, n, m)]
  {
    AddedElements(list, n);
  }

  /** Linking is two independent updates, one at each end. */
  lemma LinkIsTwoJoins(f: Field, layer: Layer, left: Key, right: Key, m: nat)
    requires left in layer && right in layer && left != right && layer.Keys <= f.vectors.Keys
    ensures Link(f, layer, left, right, m) ==
            layer[left := Joined(f, left, layer[left], right, m)][right := Joined(f, right, layer[right], left, m)]
  {
    AddedElements(layer[left], right);
    AddedElements(layer[right], left);
    var a := AddNeighbour(layer, left, right);
    var b := AddNeighbour(a, right, left);
    var u, v := Joined(f, left, layer[left], right, m), Joined(f, right, layer[right], left, m);
    PruneAfterAdd(f, b, left, layer[left], right, m);
    var c := b[left := u];
    PruneAfterAdd(f, c, right, layer[right], left, m);
    OverwriteTwice(layer, left, right, a[left], b[right], u, v);
  }

  lemma JoinedListOk(f: Field, nodes: set<Key>, k: Key, list: seq<Key>, n: Key, m: nat)
    requires nodes <= f.vectors.Keys && k in nodes && n in nodes - {k}
    requires ListOk(nodes, k, list, m)
    ensures var r := Joined(f, k, list, n, m);
            && ListOk(nodes, k, r, m)
            && (|nodes| <= m + 1 ==> Elements(r) == Elements(list) + {n})
  {
    CutIsDistinct(f, f.vectors[k], Elements(list) + {n}, m);
    SubsetCount(Elements(list) + {n}, nodes - {k});
  }

  lemma TwoListsReplaced(f: Field, layer: Layer, left: Key, right: Key, u: seq<Key>, v: seq<Key>, m: nat)
    requires LayerOk(f, layer, m) && left in layer && right in layer && left != right
    requires ListOk(layer.Keys, left, u, m) && ListOk(layer.Keys, right, v, m)
    ensures var r := layer[left := u][right := v];
            && LayerOk(f, r, m) && r.Keys == layer.Keys
            && (Elements(u) == Elements(layer[left]) + {right} && Elements(v) == Elements(layer[right]) + {left} ==>
                  Grows(layer, r) && right in r[left] && left in r[right])
  {
    assert layer[left := u][right := v].Keys == layer.Keys;
    assert right in Elements(u) <==> right in u;
    assert left in Elements(v) <==> left in v;
  }

  /** Linking two nodes keeps the layer in order, touches only their two lists,
      adds the edge asked for, and drops nothing while the layer is small. */
  lemma LinkKeepsOrder(f: Field, layer: Layer, left: Key, right: Key, m: nat)
    requires LayerOk(f, layer, m)
    requires left in layer && right in layer && left != right
    ensures var r := Link(f, layer, left, right, m);
            && LayerOk(f, r, m) && r.Keys == layer.Keys
            && (|layer| <= m + 1 ==> Grows(layer, r) && right in r[left] && left in r[right])
  {
    LinkIsTwoJoins(f, layer, left, right, m);
    JoinedListOk(f, layer.Keys, left, layer[left], right, m);
    JoinedListOk(f, layer.Keys, right, layer[right], left, m);
    TwoListsReplaced(f, layer, left, right, Joined(f, left, layer[left], right, m),
                     Joined(f, right, layer[right], left, m), m);
  }

  /** Every edge of `a` is an edge of `b`. */
  ghost predicate Grows(a: Layer, b: Layer)
  {
    a.Keys <= b.Keys && forall k | k in a :: Elements(a[k]) <= Elements(b[k])
  }

  lemma GrowsKeepsEdge(a: Layer, b: Layer, k: Key, n: Key)
    requires Grows(a, b) && k in a && n in a[k]
    ensures n in b[k]
  {
    assert n in Elements(a[k]);
  }

  lemma {:induction false} LinkAllKeepsOrder(f: Field, layer: Layer, key: Key, selected: seq<Key>, m: nat)
    requires LayerOk(f, layer, m)
    requires key in layer && Elements(selected) <= layer.Keys - {key}
    ensures var r := LinkAll(f, layer, key, selected, m);
            && LayerOk(f, r, m) && r.Keys == layer.Keys
            && (|layer| <= m + 1 ==>
                  Grows(layer, r) && forall n | n in selected :: n in r && n in r[key] && key in r[n])
    decreases |selected|
  {
    if selected != [] {
      var n := selected[0];
      assert n in Elements(selected);
      assert Elements(selected[1..]) <= Elements(selected);
      LinkKeepsOrder(f, layer, key, n, m);
      var next := Link(f, layer, key, n, m);
      LinkAllKeepsOrder(f, next, key, selected[1..], m);
      if |layer| <= m + 1 {
        SameSize(layer, next);
        var r := LinkAll(f, next, key, selected[1..], m);
        GrowsKeepsEdge(next, r, key, n);
        GrowsKeepsEdge(next, r, n, key);
      }
    }
  }

  lemma SameSize(a: Layer, b: Layer)
    requires a.Keys == b.Keys
    ensures |a| == |b|
  {
    assert |a| == |a.Keys| && |b| == |b.Keys|;
  }

  /** On a complete layer that fits the budget, a search visits every node. */
  lemma VisitsWholeLayer(f: Field, layer: Layer, q: Vector, starts: set<Key>, ef: nat, m: nat)
    requires LayerOk(f, layer, m) && Complete(layer)
    requires |layer| <= Budget(f, ef)
    requires starts * f.vectors.Keys != {} && starts * f.vectors.Keys <= layer.Keys
    ensures Visits(f, layer, q, starts, ef) == layer.Keys
  {
    var first, r := starts * f.vectors.Keys, Visits(f, layer, q, starts, ef);
    assert forall k | k in layer :: Neighbours(f, layer, k) <= Elements(layer[k]);
    ExploreStops(f, layer, q, {}, first, Budget(f, ef));
    ExploreStaysInside(f, layer, q, {}, first, Budget(f, ef), layer.Keys);
    SubsetCount(r, layer.Keys);
    if |r| < Budget(f, ef) {
      var s :| s in first;
      forall k | k in layer ensures k in r {
        assert k == s || k in Neighbours(f, layer, s);
      }
    }
  }

  /** What a search from `start` finds lies on the layer, and none of it is `key`. */
  lemma FoundAreOthers(f: Field, layer: Layer, q: Vector, key: Key, start: Key, ef: nat, m: nat)
    requires LayerOk(f, layer, m) && key !in layer && start in layer
    ensures var out := SearchLayer(f, layer, q, {start}, ef);
            && (set c | c in out && c != key && c in f.vectors) == Visits(f, layer, q, {start}, ef) <= layer.Keys
  {
    assert {start} * f.vectors.Keys == {start};
    forall k | k in layer ensures Neighbours(f, layer, k) <= layer.Keys {
      assert Neighbours(f, layer, k) <= Elements(layer[k]);
    }
    ExploreStaysInside(f, layer, q, {}, {start}, Budget(f, ef), layer.Keys);
    SearchLayerKeepsAll(f, layer, q, {start}, ef);
    var out := SearchLayer(f, layer, q, {start}, ef);
    assert forall c :: c in out <==> c in Elements(out);
  }

  /** The candidates selected for a new node are nodes of the layer; on a small
      complete layer they are all of them. */
  lemma SelectedAreOthers(f: Field, layer: Layer, key: Key, start: Key, ef: nat, m: nat)
    requires LayerOk(f, layer, m) && key in f.vectors && key !in layer && start in layer
    ensures var selected := Select(f, key, SearchLayer(f, layer, f.vectors[key], {start}, ef), m);
            && Elements(selected) <= layer.Keys
            && (Complete(layer) && |layer| <= m && |layer| <= Max(ef, 1) ==> Elements(selected) == layer.Keys)
  {
    var q := f.vectors[key];
    FoundAreOthers(f, layer, q, key, start, ef, m);
    CutIsDistinct(f, q, Visits(f, layer, q, {start}, ef), m);
    if Complete(layer) && |layer| <= m && |layer| <= Max(ef, 1) {
      SubsetCount(layer.Keys, f.vectors.Keys);
      assert {start} * f.vectors.Keys == {start};
      VisitsWholeLayer(f, layer, q, {start}, ef, m);
    }
  }

  lemma NewNodeJoinsComplete(layer: Layer, key: Key, r: Layer)
    requires Complete(layer) && Grows(EnsureNode(layer, key), r) && r.Keys == layer.Keys + {key} && key !in layer
    requires forall n | n in layer :: n in r[key] && key in r[n]
    ensures Complete(r)
  {
    forall a, b | a in r && b in r && a != b ensures b in r[a] {
      if a != key && b != key { GrowsKeepsEdge(EnsureNode(layer, key), r, a, b); }
    }
  }

  /** Inserting a node adds exactly that node and keeps the layer in order. */
  lemma InsertKeepsOrder(f: Field, layer: Layer, key: Key, start: Key, ef: nat, m: nat)
    requires LayerOk(f, layer, m) && key in f.vectors && key !in layer && start in layer
    ensures var r := InsertInLayer(f, layer, key, start, ef, m);
            && LayerOk(f, r, m) && r.Keys == layer.Keys + {key}
            && NextStart(f, r, key, start) in layer
  {
    hide ByNearness, Nearest, SearchLayer, Select, LinkAll, Explore;
    SelectedAreOthers(f, layer, key, start, Max(ef, 1), m);
    var selected := Select(f, key, SearchLayer(f, layer, f.vectors[key], {start}, Max(ef, 1)), m);
    var grown := EnsureNode(layer, key);
    assert grown.Keys == layer.Keys + {key};
    assert LayerOk(f, grown, m);
    LinkAllKeepsOrder(f, grown, key, selected, m);
    assert Neighbours(f, LinkAll(f, grown, key, selected, m), key) <=
           Elements(LinkAll(f, grown, key, selected, m)[key]);
  }

  /** A complete layer stays complete as long as it fits the degree bound and the beam. */
  lemma InsertKeepsComplete(f: Field, layer: Layer, key: Key, start: Key, ef: nat, m: nat)
    requires LayerOk(f, layer, m) && key in f.vectors && key !in layer && start in layer
    requires Complete(layer) && |layer| <= m && |layer| <= Max(ef, 1)
    ensures Complete(InsertInLayer(f, layer, key, start, ef, m))
  {
    hide ByNearness, Nearest, SearchLayer, Select, LinkAll, Explore;
    SelectedAreOthers(f, layer, key, start, Max(ef, 1), m);
    var selected := Select(f, key, SearchLayer(f, layer, f.vectors[key], {start}, Max(ef, 1)), m);
    var grown := EnsureNode(layer, key);
    assert grown.Keys == layer.Keys + {key};
    assert LayerOk(f, grown, m);
    LinkAllKeepsOrder(f, grown, key, selected, m);
    assert forall n | n in layer :: n in Elements(selected);
    NewNodeJoinsComplete(layer, key, LinkAll(f, grown, key, selected, m));
  }

  // ---------------------------------------------------------------- the whole graph

  function LayerAt(g: Graph, level: nat): Layer
  {
    if level in g.levels then g.levels[level] else map[]
  }

  /** The start handed on by single-candidate searches of the levels `hi` down to `lo`. */
  function Descend(f: Field, g: Graph, q: Vector, start: Key, hi: nat, lo: nat): (k: Key)
    decreases hi
  {
    if hi < lo then start else
    var found := SearchLayer(f, LayerAt(g, hi), q, {start}, 1);
    var next := if found == [] then start else found[0];
    if hi == 0 then next else Descend(f, g, q, next, hi - 1, lo)
  }

  /** Insert `key` on the levels `level` down to 0. */
  function InsertLevels(f: Field, g: Graph, key: Key, level: nat, start: Key, m: nat, ef: nat): (r: Graph)
    requires key in f.vectors
    decreases level
  {
    var layer := InsertInLayer(f, LayerAt(g, level), key, start, ef, MForLevel(m, level));
    var next := g.(levels := g.levels[level := layer]);
    if level == 0 then next
    else InsertLevels(f, next, key, level - 1, NextStart(f, layer, key, start), m, ef)
  }

  /** Put `key` on the levels `lo` up to `hi`, without neighbours. */
  function AddNodes(g: Graph, key: Key, lo: nat, hi: nat): (r: Graph)
    decreases hi + 1 - lo
  {
    if hi < lo then g
    else AddNodes(g.(levels := g.levels[lo := EnsureNode(LayerAt(g, lo), key)]), key, lo + 1, hi)
  }

  function InsertNode(f: Field, g: Graph, key: Key, nodeLevel: nat, m: nat, ef: nat): (r: Graph)
    requires key in f.vectors
  {
    if g.entryPoint.None? then
      AddNodes(Graph(Some(key), nodeLevel, g.levels), key, 0, nodeLevel)
    else
      var start := Descend(f, g, f.vectors[key], g.entryPoint.value, g.maxLevel, nodeLevel + 1);
      var linked := InsertLevels(f, g, key, Min(g.maxLevel, nodeLevel), start, m, ef);
      if nodeLevel > g.maxLevel then
        AddNodes(linked, key, g.maxLevel + 1, nodeLevel).(entryPoint := Some(key), maxLevel := nodeLevel)
      else linked
  }

  function InsertNodes(f: Field, g: Graph, keys: seq<Key>, level: Key -> nat, m: nat, ef: nat): (r: Graph)
    requires Elements(keys) <= f.vectors.Keys
    decreases |keys|
  {
    if keys == [] then g else
    assert keys[0] in Elements(keys) && Elements(keys[1..]) <= Elements(keys);
    InsertNodes(f, InsertNode(f, g, keys[0], level(keys[0]), m, ef), keys[1..], level, m, ef)
  }

  const EmptyGraph := Graph(None, 0, map[])

  /** The graph of a field: its keys inserted by record id, then version. */
  function Build(f: Field, level: Key -> nat, m: nat, ef: nat): (g: Graph)
  {
    IdBeforeIsTotal(f.vectors.Keys);
    InsertNodes(f, EmptyGraph, SortedBy(IdBefore, f.vectors.Keys), level, m, ef)
  }

  function AtLeast(nodes: set<Key>, level: Key -> nat, l: nat): set<Key>
  {
    set k | k in nodes && level(k) >= l
  }

  /** A well-formed graph over `nodes`: a node is on exactly the levels up to its own,
      every layer is in order, and the entry point is a node of the highest level. */
  ghost predicate GraphOk(f: Field, g: Graph, nodes: set<Key>, level: Key -> nat, m: nat)
  {
    && nodes <= f.vectors.Keys
    && (g.entryPoint.None? <==> nodes == {})
    && (g.entryPoint.Some? ==> g.entryPoint.value in nodes && level(g.entryPoint.value) == g.maxLevel)
    && (forall k | k in nodes :: level(k) <= g.maxLevel)
    && (forall l: nat :: LayerAt(g, l).Keys == AtLeast(nodes, level, l))
    && LayersOk(f, g, m)
  }

  ghost predicate LayersOk(f: Field, g: Graph, m: nat)
  {
    forall l: nat :: LayerOk(f, LayerAt(g, l), MForLevel(m, l))
  }

  /** The descent is idle: it hands on the key it started from. */
  lemma {:induction false} DescendStaysPut(f: Field, g: Graph, q: Vector, start: Key, hi: nat, lo: nat)
    requires start in f.vectors
    ensures Descend(f, g, q, start, hi, lo) == start
    decreases hi
  {
    if hi >= lo {
      SingleStepStaysPut(f, LayerAt(g, hi), q, start);
      if hi > 0 { DescendStaysPut(f, g, q, start, hi - 1, lo); }
    }
  }

  lemma {:induction false} AddNodesOk(f: Field, g: Graph, key: Key, lo: nat, hi: nat, m: nat)
    requires key in f.vectors && LayersOk(f, g, m)
    requires forall l | lo <= l <= hi :: LayerAt(g, l) == map[]
    ensures var r := AddNodes(g, key, lo, hi);
            && r.entryPoint == g.entryPoint && r.maxLevel == g.maxLevel && LayersOk(f, r, m)
            && (forall l: nat :: LayerAt(r, l) == if lo <= l <= hi then map[key := []] else LayerAt(g, l))
    decreases hi + 1 - lo
  {
    if lo <= hi {
      var next := g.(levels := g.levels[lo := EnsureNode(LayerAt(g, lo), key)]);
      assert LayerAt(next, lo) == map[key := []];
      assert forall l: nat :: l != lo ==> LayerAt(next, l) == LayerAt(g, l);
      assert LayersOk(f, next, m);
      AddNodesOk(f, next, key, lo + 1, hi, m);
    }
  }

  ghost predicate Nested(g: Graph, top: nat)
  {
    forall l | 0 <= l < top :: LayerAt(g, l + 1).Keys <= LayerAt(g, l).Keys
  }

  lemma {:induction false} InsertLevelsOk(f: Field, g: Graph, key: Key, level: nat, start: Key, m: nat, ef: nat)
    requires key in f.vectors && LayersOk(f, g, m) && start in LayerAt(g, level) && Nested(g, level)
    requires forall l | 0 <= l <= level :: key !in LayerAt(g, l)
    ensures var r := InsertLevels(f, g, key, level, start, m, ef);
            && r.entryPoint == g.entryPoint && r.maxLevel == g.maxLevel && LayersOk(f, r, m)
            && (forall l: nat :: LayerAt(r, l).Keys == LayerAt(g, l).Keys + if l <= level then {key} else {})
    decreases level
  {
    hide InsertInLayer, NextStart, LayerOk, MForLevel;
    var layer := InsertInLayer(f, LayerAt(g, level), key, start, ef, MForLevel(m, level));
    InsertKeepsOrder(f, LayerAt(g, level), key, start, ef, MForLevel(m, level));
    var next := g.(levels := g.levels[level := layer]);
    assert LayerAt(next, level) == layer;
    assert forall l: nat :: l != level ==> LayerAt(next, l) == LayerAt(g, l);
    assert LayersOk(f, next, m);
    if level > 0 {
      var start' := NextStart(f, layer, key, start);
      assert start' in LayerAt(g, level - 1);
      InsertLevelsOk(f, next, key, level - 1, start', m, ef);
    }
  }

  /** A small complete ground layer stays complete. */
  lemma {:induction false} InsertLevelsKeepsComplete(f: Field, g: Graph, key: Key, level: nat, start: Key, m: nat,
                                                     ef: nat)
    requires key in f.vectors && LayersOk(f, g, m) && start in LayerAt(g, level) && Nested(g, level)
    requires forall l | 0 <= l <= level :: key !in LayerAt(g, l)
    requires Complete(LayerAt(g, 0)) && |LayerAt(g, 0)| <= MForLevel(m, 0) && |LayerAt(g, 0)| <= Max(ef, 1)
    ensures Complete(LayerAt(InsertLevels(f, g, key, level, start, m, ef), 0))
    decreases level
  {
    hide InsertInLayer, NextStart, Complete;
    var layer := InsertInLayer(f, LayerAt(g, level), key, start, ef, MForLevel(m, level));
    InsertKeepsOrder(f, LayerAt(g, level), key, start, ef, MForLevel(m, level));
    var next := g.(levels := g.levels[level := layer]);
    assert LayerAt(next, level) == layer;
    assert forall l: nat :: l != level ==> LayerAt(next, l) == LayerAt(g, l);
    if level > 0 {
      var start' := NextStart(f, layer, key, start);
      assert start' in LayerAt(g, level - 1);
      assert LayersOk(f, next, m);
      InsertLevelsKeepsComplete(f, next, key, level - 1, start', m, ef);
    } else {
      InsertKeepsComplete(f, LayerAt(g, 0), key, start, ef, MForLevel(m, 0));
    }
  }

  lemma FirstNodeOk(f: Field, g: Graph, nodes: set<Key>, key: Key, level: Key -> nat, m: nat, ef: nat)
    requires GraphOk(f, g, nodes, level, m) && key in f.vectors && g.entryPoint.None?
    ensures GraphOk(f, InsertNode(f, g, key, level(key), m, ef), nodes + {key}, level, m)
    ensures Complete(LayerAt(InsertNode(f, g, key, level(key), m, ef), 0))
  {
    forall l: nat ensures LayerAt(g, l) == map[] {
      assert AtLeast({}, level, l) == {};
      assert LayerAt(g, l).Keys == {};
    }
    var seed := Graph(Some(key), level(key), g.levels);
    assert forall l: nat :: LayerAt(seed, l) == LayerAt(g, l);
    AddNodesOk(f, seed, key, 0, level(key), m);
  }

  lemma AtLeastGrows(nodes: set<Key>, key: Key, level: Key -> nat, l: nat)
    ensures AtLeast(nodes + {key}, level, l) == AtLeast(nodes, level, l) + if l <= level(key) then {key} else {}
  {
  }

  /** What insertion needs of a well-formed graph. */
  lemma ReadyToInsert(f: Field, g: Graph, nodes: set<Key>, key: Key, level: Key -> nat, m: nat, low: nat)
    requires GraphOk(f, g, nodes, level, m) && key !in nodes && g.entryPoint.Some? && low <= g.maxLevel
    ensures LayersOk(f, g, m) && g.entryPoint.value in f.vectors
    ensures g.entryPoint.value in LayerAt(g, low) && Nested(g, low) && LayerAt(g, 0).Keys == nodes
    ensures forall l: nat :: key !in LayerAt(g, l)
    ensures forall l: nat | l > g.maxLevel :: LayerAt(g, l) == map[]
  {
    hide LayerOk;
    assert AtLeast(nodes, level, 0) == nodes;
    assert g.entryPoint.value in AtLeast(nodes, level, low);
    forall l: nat | l > g.maxLevel ensures LayerAt(g, l) == map[] {
      assert LayerAt(g, l).Keys == AtLeast(nodes, level, l) == {};
    }
    forall l | 0 <= l < low ensures LayerAt(g, l + 1).Keys <= LayerAt(g, l).Keys {
      assert AtLeast(nodes, level, l + 1) <= AtLeast(nodes, level, l);
    }
  }

  lemma GrownGraphOk(f: Field, g: Graph, nodes: set<Key>, key: Key, level: Key -> nat, m: nat, r: Graph)
    requires GraphOk(f, g, nodes, level, m) && key in f.vectors && g.entryPoint.Some? && LayersOk(f, r, m)
    requires forall l: nat :: LayerAt(r, l).Keys == LayerAt(g, l).Keys + if l <= level(key) then {key} else {}
    requires r.maxLevel == Max(g.maxLevel, level(key))
    requires r.entryPoint == if level(key) > g.maxLevel then Some(key) else g.entryPoint
    ensures GraphOk(f, r, nodes + {key}, level, m)
  {
    hide LayerOk;
    forall l: nat ensures LayerAt(r, l).Keys == AtLeast(nodes + {key}, level, l) {
      AtLeastGrows(nodes, key, level, l);
    }
  }

  /** Insertion into a non-empty graph, with the idle descent resolved. */
  lemma InsertNodeShape(f: Field, g: Graph, key: Key, own: nat, m: nat, ef: nat)
    requires key in f.vectors && g.entryPoint.Some? && g.entryPoint.value in f.vectors
    ensures var linked := InsertLevels(f, g, key, Min(g.maxLevel, own), g.entryPoint.value, m, ef);
            InsertNode(f, g, key, own, m, ef) ==
            if own > g.maxLevel then
              AddNodes(linked, key, g.maxLevel + 1, own).(entryPoint := Some(key), maxLevel := own)
            else linked
  {
    hide InsertLevels, Descend, AddNodes, InsertInLayer, LayerAt;
    DescendStaysPut(f, g, f.vectors[key], g.entryPoint.value, g.maxLevel, own + 1);
  }

  lemma InsertIntoNonEmpty(f: Field, g: Graph, nodes: set<Key>, key: Key, level: Key -> nat, m: nat, ef: nat)
    requires GraphOk(f, g, nodes, level, m) && key in f.vectors && key !in nodes && g.entryPoint.Some?
    ensures GraphOk(f, InsertNode(f, g, key, level(key), m, ef), nodes + {key}, level, m)
    ensures var linked := InsertLevels(f, g, key, Min(g.maxLevel, level(key)), g.entryPoint.value, m, ef);
            LayerAt(InsertNode(f, g, key, level(key), m, ef), 0) == LayerAt(linked, 0)
  {
    hide GraphOk, LayersOk, InsertLevels, AddNodes, Nested, LayerAt, InsertNode;
    var own, low, start := level(key), Min(g.maxLevel, level(key)), g.entryPoint.value;
    ReadyToInsert(f, g, nodes, key, level, m, low);
    InsertNodeShape(f, g, key, own, m, ef);
    InsertLevelsOk(f, g, key, low, start, m, ef);
    var linked := InsertLevels(f, g, key, low, start, m, ef);
    if own > g.maxLevel {
      RaiseOk(f, g, linked, key, own, m);
    }
    GrownGraphOk(f, g, nodes, key, level, m, InsertNode(f, g, key, own, m, ef));
  }

  /** Inserting a new node into a well-formed graph gives a well-formed graph with
      that one node more, and leaves a small complete ground layer complete. */
  lemma InsertNodeOk(f: Field, g: Graph, nodes: set<Key>, key: Key, level: Key -> nat, m: nat, ef: nat)
    requires GraphOk(f, g, nodes, level, m) && key in f.vectors && key !in nodes
    ensures GraphOk(f, InsertNode(f, g, key, level(key), m, ef), nodes + {key}, level, m)
    ensures Complete(LayerAt(g, 0)) && |nodes| <= MForLevel(m, 0) && |nodes| <= Max(ef, 1) ==>
              Complete(LayerAt(InsertNode(f, g, key, level(key), m, ef), 0))
  {
    hide GraphOk, LayersOk, Complete, InsertLevels, InsertNode, Nested, LayerAt;
    if g.entryPoint.None? {
      FirstNodeOk(f, g, nodes, key, level, m, ef);
    } else {
      InsertIntoNonEmpty(f, g, nodes, key, level, m, ef);
      if Complete(LayerAt(g, 0)) && |nodes| <= MForLevel(m, 0) && |nodes| <= Max(ef, 1) {
        var low := Min(g.maxLevel, level(key));
        ReadyToInsert(f, g, nodes, key, level, m, low);
        InsertLevelsKeepsComplete(f, g, key, low, g.entryPoint.value, m, ef);
      }
    }
  }

  /** A node above the old top gets the new levels to itself. */
  lemma RaiseOk(f: Field, g: Graph, linked: Graph, key: Key, own: nat, m: nat)
    requires key in f.vectors && LayersOk(f, linked, m) && own > g.maxLevel
    requires forall l: nat | l > g.maxLevel :: LayerAt(g, l) == map[]
    requires forall l: nat :: LayerAt(linked, l).Keys == LayerAt(g, l).Keys + if l <= g.maxLevel then {key} else {}
    ensures var r := AddNodes(linked, key, g.maxLevel + 1, own).(entryPoint := Some(key), maxLevel := own);
            && LayersOk(f, r, m) && LayerAt(r, 0) == LayerAt(linked, 0)
            && (forall l: nat :: LayerAt(r, l).Keys == LayerAt(g, l).Keys + if l <= own then {key} else {})
  {
    forall l: nat | l > g.maxLevel ensures LayerAt(linked, l) == map[] {
      assert LayerAt(linked, l).Keys == {};
    }
    AddNodesOk(f, linked, key, g.maxLevel + 1, own, m);
    var raised := AddNodes(linked, key, g.maxLevel + 1, own);
    SameLayers(f, raised, raised.(entryPoint := Some(key), maxLevel := own), m);
  }

  lemma SameLayers(f: Field, a: Graph, b: Graph, m: nat)
    requires a.levels == b.levels && LayersOk(f, a, m)
    ensures LayersOk(f, b, m) && forall l: nat :: LayerAt(b, l) == LayerAt(a, l)
  {
    assert forall l: nat :: LayerAt(b, l) == LayerAt(a, l);
  }

  /** Moving the head of a duplicate-free sequence over to `nodes`. */
  lemma MoveHead(nodes: set<Key>, keys: seq<Key>)
    requires Elements(keys) !! nodes && NoDuplicates(keys) && keys != []
    ensures keys[0] !in nodes && |nodes + {keys[0]}| == |nodes| + 1
    ensures Elements(keys[1..]) !! nodes + {keys[0]} && NoDuplicates(keys[1..])
    ensures nodes + {keys[0]} + Elements(keys[1..]) == nodes + Elements(keys)
  {
    assert keys[0] in Elements(keys);
    assert Elements(keys) == {keys[0]} + Elements(keys[1..]);
  }

  lemma InsertNodesStep(f: Field, g: Graph, keys: seq<Key>, level: Key -> nat, m: nat, ef: nat)
    requires Elements(keys) <= f.vectors.Keys && keys != []
    ensures keys[0] in f.vectors && Elements(keys[1..]) <= f.vectors.Keys
    ensures InsertNodes(f, g, keys, level, m, ef) ==
            InsertNodes(f, InsertNode(f, g, keys[0], level(keys[0]), m, ef), keys[1..], level, m, ef)
  {
    hide InsertNode;
    assert keys[0] in Elements(keys) && Elements(keys[1..]) <= Elements(keys);
  }

  /** After every single insertion the graph is well formed over the keys inserted so
      far, and its ground layer is complete while they fit the degree bound and the beam. */
  lemma {:induction false} InsertNodesOk(f: Field, g: Graph, nodes: set<Key>, keys: seq<Key>, level: Key -> nat,
                                         m: nat, ef: nat)
    requires GraphOk(f, g, nodes, level, m) && Elements(keys) <= f.vectors.Keys
    requires Elements(keys) !! nodes && NoDuplicates(keys)
    ensures GraphOk(f, InsertNodes(f, g, keys, level, m, ef), nodes + Elements(keys), level, m)
    ensures Complete(LayerAt(g, 0)) && |nodes| + |keys| <= Min(MForLevel(m, 0), Max(ef, 1)) + 1 ==>
              Complete(LayerAt(InsertNodes(f, g, keys, level, m, ef), 0))
    decreases |keys|
  {
    hide GraphOk, InsertNode, Complete, LayerAt, NoDuplicates, Elements;
    if keys == [] {
      assert Elements(keys) == {} by { NoElements(keys); }
      assert nodes + {} == nodes;
    } else {
      var key := keys[0];
      MoveHead(nodes, keys);
      InsertNodesStep(f, g, keys, level, m, ef);
      hide InsertNodes;
      InsertNodeOk(f, g, nodes, key, level, m, ef);
      InsertNodesOk(f, InsertNode(f, g, key, level(key), m, ef), nodes + {key}, keys[1..], level, m, ef);
    }
  }

  /** Every graph built is well formed over all keys of the field, and the graph of a
      field that fits the degree bound and the beam has a complete ground layer. */
  lemma BuildOk(f: Field, level: Key -> nat, m: nat, ef: nat)
    ensures GraphOk(f, Build(f, level, m, ef), f.vectors.Keys, level, m)
    ensures |f.vectors| <= Min(MForLevel(m, 0), Max(ef, 1)) + 1 ==> Complete(LayerAt(Build(f, level, m, ef), 0))
  {
    hide GraphOk, Complete, LayerAt, InsertNodes, IdBefore, TotalOn, Ascending, NoDuplicates, MForLevel;
    IdBeforeIsTotal(f.vectors.Keys);
    SortedByAscends(IdBefore, f.vectors.Keys);
    EmptyGraphOk(f, level, m);
    InsertNodesOk(f, EmptyGraph, {}, SortedBy(IdBefore, f.vectors.Keys), level, m, ef);
    assert {} + f.vectors.Keys == f.vectors.Keys;
  }

  lemma EmptyGraphOk(f: Field, level: Key -> nat, m: nat)
    ensures GraphOk(f, EmptyGraph, {}, level, m) && Complete(LayerAt(EmptyGraph, 0))
  {
    forall l: nat ensures LayerAt(EmptyGraph, l).Keys == AtLeast({}, level, l) {
      assert AtLeast({}, level, l) == {};
    }
  }

  // ---------------------------------------------------------------- the build loops

  method BuildHnswGraph(f: Field, level: Key -> nat, m: nat, ef: nat) returns (g: Graph)
    ensures g == Build(f, level, m, ef)
  {
    IdBeforeIsTotal(f.vectors.Keys);
    var keys := SortedBy(IdBefore, f.vectors.Keys);
    g := EmptyGraph;
    var i := 0;
    while i < |keys|
      invariant 0 <= i <= |keys| && Elements(keys[i..]) <= f.vectors.Keys
      invariant InsertNodes(f, g, keys[i..], level, m, ef) == Build(f, level, m, ef)
    {
      var key := keys[i];
      assert key in Elements(keys[i..]) && keys[i..][1..] == keys[i + 1..];
      var nodeLevel := level(key);
      if g.entryPoint.None? {
        g := AddNodes(Graph(Some(key), nodeLevel, g.levels), key, 0, nodeLevel);
      } else {
        g := InsertBelowEntry(f, g, key, nodeLevel, m, ef);
      }
      i := i + 1;
    }
    assert keys[i..] == [];
  }

  method InsertBelowEntry(f: Field, g0: Graph, key: Key, nodeLevel: nat, m: nat, ef: nat) returns (g: Graph)
    requires key in f.vectors && g0.entryPoint.Some?
    ensures g == InsertNode(f, g0, key, nodeLevel, m, ef)
  {
    hide InsertInLayer, SearchLayer, AddNodes;
    g := g0;
    var q := f.vectors[key];
    var start := g.entryPoint.value;
    var level: int := g.maxLevel;
    while level > nodeLevel
      invariant level >= -1
      invariant (if level >= 0 then Descend(f, g, q, start, level, nodeLevel + 1) else start)
             == Descend(f, g0, q, g0.entryPoint.value, g0.maxLevel, nodeLevel + 1)
    {
      var found, _ := HnswSearchLayer(f, LayerAt(g, level), q, [start], 1, {});
      assert Elements([start]) == {start};
      if found != [] { start := found[0]; }
      level := level - 1;
    }
    var low := Min(g0.maxLevel, nodeLevel);
    ghost var first := start;
    level := low;
    while level >= 0
      invariant -1 <= level <= low && g.entryPoint == g0.entryPoint && g.maxLevel == g0.maxLevel
      invariant (if level >= 0 then InsertLevels(f, g, key, level, start, m, ef) else g)
             == InsertLevels(f, g0, key, low, first, m, ef)
    {
      var layer := InsertIntoLayer(f, LayerAt(g, level), key, start, ef, MForLevel(m, level));
      g := g.(levels := g.levels[level := layer]);
      start := NextStart(f, layer, key, start);
      level := level - 1;
    }
    if nodeLevel > g0.maxLevel {
      g := AddNodes(g, key, g0.maxLevel + 1, nodeLevel).(entryPoint := Some(key), maxLevel := nodeLevel);
    }
  }

  method InsertIntoLayer(f: Field, layer0: Layer, key: Key, start: Key, ef: nat, m: nat) returns (layer: Layer)
    requires key in f.vectors
    ensures layer == InsertInLayer(f, layer0, key, start, ef, m)
  {
    hide SearchLayer, Select, Link;
    var candidates, _ := HnswSearchLayer(f, layer0, f.vectors[key], [start], Max(ef, 1), {});
    assert Elements([start]) == {start};
    var selected := Select(f, key, candidates, m);
    layer := EnsureNode(layer0, key);
    var i := 0;
    while i < |selected|
      invariant 0 <= i <= |selected|
      invariant LinkAll(f, layer, key, selected[i..], m) == LinkAll(f, EnsureNode(layer0, key), key, selected, m)
    {
      assert selected[i..][1..] == selected[i + 1..];
      layer := Link(f, layer, key, selected[i], m);
      i := i + 1;
    }
    assert selected[i..] == [];
  }
}
