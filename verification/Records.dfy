/** The part of the record store (crates/tracedb-store/src/lib.rs) that decides whether it
    takes a write: per record its last version's fields, feature names and tombstone. Live
    writes are planned under the schema of the moment; replay applies logged writes under
    whatever schema list it is given, and can refuse them. */
module Records {
  import opened Ordering
  import opened Schemas
  import opened Texts

  /** A JSON value, as far as the store looks at it; a number is its text. */
  datatype Value = Text(text: string) | Numbers(items: seq<string>) | OtherJson(json: string)

  type Fields = map<string, Value>

  datatype RecordInput = RecordInput(table: string, tenantId: string, id: string, fields: Fields)

  datatype RecordDeletion = RecordDeletion(table: string, tenantId: string, id: string, tombstone: string)

  datatype Invalidation = Invalidation(table: string, tenantId: string, recordId: string, feature: string,
                                       status: string)

  datatype StoredRecord = StoredRecord(table: string, tenantId: string, recordId: string, fields: Fields,
                                       features: set<string>, tombstoned: bool)

  /** The last version of each record by its key. */
  type Store = map<string, StoredRecord>

  /** The record changes of one commit. */
  datatype Writes = Writes(replacements: seq<RecordInput>, mutations: seq<RecordInput>,
                           deletions: seq<RecordDeletion>, invalidations: seq<Invalidation>)

  const NoWrites := Writes([], [], [], [])

  // ---------------------------------------------------------------- names

  function RecordKey(table: string, tenant: string, id: string): string
  {
    table + ['\0'] + (tenant + ['\0'] + id)
  }

  /** Keys of tables without NUL in their names tell the tables apart. */
  lemma KeyTellsTable(a: string, t: string, i: string, b: string, u: string, j: string)
    requires '\0' !in a && '\0' !in b && RecordKey(a, t, i) == RecordKey(b, u, j)
    ensures a == b
  {
    var k, l := RecordKey(a, t, i), RecordKey(b, u, j);
    assert k[|a|] == '\0' && l[|b|] == '\0';
    assert forall n | 0 <= n < |a| :: k[n] == a[n];
    assert forall n | 0 <= n < |b| :: l[n] == b[n];
    assert a == k[..|a|] && b == l[..|b|];
  }

  // ---------------------------------------------------------------- checks

  function Dimensions(v: Value): nat
  {
    if v.Numbers? then |v.items| else 0
  }

  predicate IdentityOk(schema: TableSchema, input: RecordInput, fields: Fields)
  {
    && input.id != "" && input.tenantId != ""
    && (schema.primaryId in fields ==> fields[schema.primaryId] == Text(input.id))
    && (schema.tenant in fields ==> fields[schema.tenant] == Text(input.tenantId))
  }

  predicate DimensionsOk(schema: TableSchema, fields: Fields)
  {
    forall i | 0 <= i < |schema.vectors| :: FitsColumn(schema.vectors[i], fields)
  }

  predicate FitsColumn(v: VectorColumn, fields: Fields)
  {
    v.name in fields ==> Dimensions(fields[v.name]) == v.dimensions
  }

  function VectorNames(schema: TableSchema): set<string>
  {
    set i | 0 <= i < |schema.vectors| :: schema.vectors[i].name
  }

  function Including(fields: Fields, name: string, v: Value): Fields
  {
    if name in fields then fields else fields[name := v]
  }

  /** The live last version of a record, if there is one. */
  function LiveVersion(store: Store, key: string): Option<StoredRecord>
  {
    if key in store && !store[key].tombstoned then Some(store[key]) else None
  }

  // ---------------------------------------------------------------- single writes

  function KeyOf(input: RecordInput): string
  {
    RecordKey(input.table, input.tenantId, input.id)
  }

  /** `None` is the error result, here and below. */
  function Replace(store: Store, schema: TableSchema, input: RecordInput): Option<Store>
  {
    var fields := input.fields[schema.primaryId := Text(input.id)][schema.tenant := Text(input.tenantId)];
    if !IdentityOk(schema, input, input.fields) || !DimensionsOk(schema, input.fields) ||
       !IdentityOk(schema, input, fields) then None
    else Some(store[KeyOf(input) := StoredRecord(input.table, input.tenantId, input.id, fields, VectorNames(schema),
                                                 false)])
  }

  function Mutate(store: Store, schema: TableSchema, input: RecordInput): Option<Store>
  {
    var previous := LiveVersion(store, KeyOf(input));
    var merged := (if previous.Some? then previous.value.fields else map[]) + input.fields;
    var fields := Including(Including(merged, schema.primaryId, Text(input.id)), schema.tenant, Text(input.tenantId));
    var features := (if previous.Some? then previous.value.features else {}) + VectorNames(schema);
    if !IdentityOk(schema, input, input.fields) || !DimensionsOk(schema, input.fields) ||
       !IdentityOk(schema, input, fields) then None
    else Some(store[KeyOf(input) := StoredRecord(input.table, input.tenantId, input.id, fields, features, false)])
  }

  function Delete(store: Store, d: RecordDeletion): Option<Store>
  {
    var key := RecordKey(d.table, d.tenantId, d.id);
    var previous := LiveVersion(store, key);
    if Blank(d.id) || Blank(d.tenantId) || previous.None? then None
    else Some(store[key := StoredRecord(d.table, d.tenantId, d.id, previous.value.fields, previous.value.features,
                                        true)])
  }

  /** The record is there and has the feature; setting its status changes neither. */
  predicate HasFeature(store: Store, x: Invalidation, tenant: string)
  {
    var r := LiveVersion(store, RecordKey(x.table, tenant, x.recordId));
    r.Some? && x.feature in r.value.features
  }

  /** The tenants an invalidation may mean: its own, or, when that is blank, those of the
      commit's inputs for the record, or, when there are none, those that have the feature. */
  function Tenants(store: Store, inputs: seq<RecordInput>, x: Invalidation): set<string>
  {
    var named := set i | 0 <= i < |inputs| && inputs[i].table == x.table && inputs[i].id == x.recordId &&
                         !Blank(inputs[i].tenantId) :: Trim(inputs[i].tenantId);
    if !Blank(x.tenantId) then {x.tenantId}
    else if named != {} then named
    else set k | k in store && store[k].table == x.table && store[k].recordId == x.recordId &&
                 !store[k].tombstoned && x.feature in store[k].features :: store[k].tenantId
  }

  predicate Resolves(store: Store, inputs: seq<RecordInput>, x: Invalidation)
  {
    var tenants := Tenants(store, inputs, x);
    |tenants| == 1 && forall t | t in tenants :: HasFeature(store, x, t)
  }

  // ---------------------------------------------------------------- replay

  function ReplaceAll(schemas: seq<TableSchema>, store: Store, inputs: seq<RecordInput>): Option<Store>
    decreases |inputs|
  {
    if inputs == [] then Some(store) else
    var schema := Find(schemas, inputs[0].table);
    var next := if schema.None? then None else Replace(store, schema.value, inputs[0]);
    if next.None? then None else ReplaceAll(schemas, next.value, inputs[1..])
  }

  function MutateAll(schemas: seq<TableSchema>, store: Store, inputs: seq<RecordInput>): Option<Store>
    decreases |inputs|
  {
    if inputs == [] then Some(store) else
    var schema := Find(schemas, inputs[0].table);
    var next := if schema.None? then None else Mutate(store, schema.value, inputs[0]);
    if next.None? then None else MutateAll(schemas, next.value, inputs[1..])
  }

  function DeleteAll(schemas: seq<TableSchema>, store: Store, deletions: seq<RecordDeletion>): Option<Store>
    decreases |deletions|
  {
    if deletions == [] then Some(store) else
    var next := if Find(schemas, deletions[0].table).None? then None else Delete(store, deletions[0]);
    if next.None? then None else DeleteAll(schemas, next.value, deletions[1..])
  }

  /** One logged commit under a schema list. */
  function Apply(schemas: seq<TableSchema>, store: Store, w: Writes): Option<Store>
  {
    var replaced := ReplaceAll(schemas, store, w.replacements);
    var mutated := if replaced.None? then None else MutateAll(schemas, replaced.value, w.mutations);
    var deleted := if mutated.None? then None else DeleteAll(schemas, mutated.value, w.deletions);
    if deleted.Some? && forall i | 0 <= i < |w.invalidations| ::
         Resolves(deleted.value, w.mutations + w.replacements, w.invalidations[i]) then deleted
    else None
  }

  function ApplyAll(schemas: seq<TableSchema>, store: Store, ws: seq<Writes>): Option<Store>
    decreases |ws|
  {
    if ws == [] then Some(store) else
    var next := Apply(schemas, store, ws[0]);
    if next.None? then None else ApplyAll(schemas, next.value, ws[1..])
  }

  /** The loop over the commits of a replay. */
  method Replay(schemas: seq<TableSchema>, store: Store, ws: seq<Writes>) returns (r: Option<Store>)
    ensures r == ApplyAll(schemas, store, ws)
  {
    hide Apply;
    var now, i := store, 0;
    while i < |ws|
      invariant 0 <= i <= |ws| && ApplyAll(schemas, now, ws[i..]) == ApplyAll(schemas, store, ws)
    {
      assert ws[i..][1..] == ws[i + 1..];
      var next := Apply(schemas, now, ws[i]);
      if next.None? { return None; }
      now, i := next.value, i + 1;
    }
    assert ws[i..] == [];
    return Some(now);
  }

  // ---------------------------------------------------------------- live writes

  datatype Write =
    | Insert(input: RecordInput)          // also a patch
    | Put(inputs: seq<RecordInput>)       // one record or a batch
    | Remove(deletion: RecordDeletion)
    | SetFeature(change: Invalidation)

  predicate HasSource(v: VectorColumn, fields: Fields)
  {
    exists i | 0 <= i < |v.sources| :: v.sources[i] in fields
  }

  /** The features that a write leaves dirty: a source is written, the vector is not. */
  function DirtyFeatures(vectors: seq<VectorColumn>, input: RecordInput): seq<Invalidation>
  {
    if vectors == [] then []
    else
      (if vectors[0].name !in input.fields && HasSource(vectors[0], input.fields)
       then [Invalidation(input.table, input.tenantId, input.id, vectors[0].name, "Dirty")] else [])
      + DirtyFeatures(vectors[1..], input)
  }

  function DirtyIn(schemas: seq<TableSchema>, inputs: seq<RecordInput>): seq<Invalidation>
  {
    if inputs == [] then []
    else
      var schema := Find(schemas, inputs[0].table);
      (if schema.Some? then DirtyFeatures(schema.value.vectors, inputs[0]) else []) + DirtyIn(schemas, inputs[1..])
  }

  /** What a live write logs and the store it leaves; `None` when it is rejected. */
  function Plan(schemas: seq<TableSchema>, store: Store, w: Write): Option<(Writes, Store)>
  {
    match w
    case Insert(input) =>
      var next := MutateAll(schemas, store, [input]);
      if next.None? then None else Some((Writes([], [input], [], DirtyIn(schemas, [input])), next.value))
    case Put(inputs) =>
      var next := ReplaceAll(schemas, store, inputs);
      if inputs == [] || next.None? then None else Some((Writes(inputs, [], [], DirtyIn(schemas, inputs)), next.value))
    case Remove(d) =>
      var next := DeleteAll(schemas, store, [d]);
      if next.None? then None else Some((Writes([], [], [d], []), next.value))
    case SetFeature(x) =>
      var schema := Find(schemas, x.table);
      if Blank(x.tenantId) || schema.None? || x.feature !in VectorNames(schema.value) then None
      else if !HasFeature(store, x, x.tenantId) then None
      else Some((Writes([], [], [], [x]), store))
  }

  predicate NoLiveRow(store: Store, table: string)
  {
    forall k | k in store :: store[k].table != table || store[k].tombstoned
  }

  /** A table may be changed freely while it has no live row; then its identity columns and
      the dimensions of the vectors it keeps are fixed. */
  predicate Compatible(schemas: seq<TableSchema>, store: Store, schema: TableSchema)
  {
    var existing := Find(schemas, schema.name);
    existing.None? || NoLiveRow(store, schema.name) ||
    (&& schema.primaryId == existing.value.primaryId && schema.tenant == existing.value.tenant
     && forall i | 0 <= i < |existing.value.vectors| :: SameDimensions(schema.vectors, existing.value.vectors[i]))
  }

  /** The first column of that name has the same dimensions. */
  predicate SameDimensions(vectors: seq<VectorColumn>, v: VectorColumn)
  {
    vectors == [] ||
    (if vectors[0].name == v.name then vectors[0].dimensions == v.dimensions else SameDimensions(vectors[1..], v))
  }

  // ---------------------------------------------------------------- replay under the same schemas

  /** The inputs of the commit name their tenants: no blank ones. */
  predicate Named(w: Writes)
  {
    forall i | 0 <= i < |w.invalidations| :: !Blank(w.invalidations[i].tenantId)
  }

  ghost predicate NulFree(schemas: seq<TableSchema>)
  {
    forall i | 0 <= i < |schemas| :: '\0' !in schemas[i].name
  }

  lemma {:induction false} DirtyAreColumns(vectors: seq<VectorColumn>, input: RecordInput, x: Invalidation)
    requires x in DirtyFeatures(vectors, input)
    ensures x.table == input.table && x.tenantId == input.tenantId && x.recordId == input.id
    ensures exists i :: 0 <= i < |vectors| && vectors[i].name == x.feature
  {
    if x in DirtyFeatures(vectors[1..], input) {
      DirtyAreColumns(vectors[1..], input, x);
      var i :| 0 <= i < |vectors[1..]| && vectors[1..][i].name == x.feature;
      assert vectors[i + 1].name == x.feature;
    }
  }

  lemma {:induction false} DirtyComesFrom(schemas: seq<TableSchema>, inputs: seq<RecordInput>, x: Invalidation)
    requires x in DirtyIn(schemas, inputs)
    ensures exists i :: 0 <= i < |inputs| && Dirties(schemas, inputs[i], x)
  {
    hide Find;
    var schema := Find(schemas, inputs[0].table);
    if schema.Some? && x in DirtyFeatures(schema.value.vectors, inputs[0]) {
      DirtyAreColumns(schema.value.vectors, inputs[0], x);
      assert Dirties(schemas, inputs[0], x);
    } else {
      DirtyComesFrom(schemas, inputs[1..], x);
      var i :| 0 <= i < |inputs[1..]| && Dirties(schemas, inputs[1..][i], x);
      assert Dirties(schemas, inputs[i + 1], x);
    }
  }

  predicate Dirties(schemas: seq<TableSchema>, input: RecordInput, x: Invalidation)
  {
    && x.table == input.table && x.tenantId == input.tenantId && x.recordId == input.id
    && Find(schemas, input.table).Some? && x.feature in VectorNames(Find(schemas, input.table).value)
  }

  /** The store holds the record live, with every feature its table has. */
  predicate Complete(schemas: seq<TableSchema>, store: Store, input: RecordInput)
  {
    var schema, r := Find(schemas, input.table), LiveVersion(store, KeyOf(input));
    schema.Some? && r.Some? && VectorNames(schema.value) <= r.value.features
  }

  lemma ReplaceKeepsComplete(schemas: seq<TableSchema>, store: Store, input: RecordInput, other: RecordInput)
    requires NulFree(schemas) && Find(schemas, input.table).Some?
    requires Replace(store, Find(schemas, input.table).value, input).Some?
    ensures var next := Replace(store, Find(schemas, input.table).value, input).value;
            Complete(schemas, next, input) && (Complete(schemas, store, other) ==> Complete(schemas, next, other))
  {
    hide IdentityOk, DimensionsOk, RecordKey, Find;
    if Complete(schemas, store, other) && KeyOf(other) == KeyOf(input) {
      KeyTellsTable(input.table, input.tenantId, input.id, other.table, other.tenantId, other.id);
    }
  }

  lemma {:induction false} ReplaceAllComplete(schemas: seq<TableSchema>, store: Store, inputs: seq<RecordInput>,
                                              x: RecordInput)
    requires NulFree(schemas) && ReplaceAll(schemas, store, inputs).Some?
    ensures x in inputs || Complete(schemas, store, x) ==>
            Complete(schemas, ReplaceAll(schemas, store, inputs).value, x)
    decreases |inputs|
  {
    hide Replace, Complete, Find;
    if inputs != [] {
      ReplaceKeepsComplete(schemas, store, inputs[0], x);
      ReplaceAllComplete(schemas, Replace(store, Find(schemas, inputs[0].table).value, inputs[0]).value, inputs[1..],
                         x);
    }
  }

  lemma MutateCompletes(schemas: seq<TableSchema>, store: Store, input: RecordInput)
    requires MutateAll(schemas, store, [input]).Some?
    ensures Complete(schemas, MutateAll(schemas, store, [input]).value, input)
  {
    hide IdentityOk, DimensionsOk, RecordKey, Find;
    assert [input][1..] == [];
    var next := Mutate(store, Find(schemas, input.table).value, input);
    assert MutateAll(schemas, next.value, []) == next;
  }

  lemma CompleteResolves(schemas: seq<TableSchema>, store: Store, inputs: seq<RecordInput>, input: RecordInput,
                         x: Invalidation)
    requires Complete(schemas, store, input) && Dirties(schemas, input, x) && !Blank(x.tenantId)
    ensures Resolves(store, inputs, x)
  {
    hide Blank, RecordKey, Find;
    assert Tenants(store, inputs, x) == {x.tenantId};
  }

  /** Replay takes every write that a live call logged, and leaves the same store, as long
      as it runs under the schemas of the call and the call named its tenants. */
  lemma PlannedReplays(schemas: seq<TableSchema>, store: Store, w: Write)
    requires NulFree(schemas) && Plan(schemas, store, w).Some? && Named(Plan(schemas, store, w).value.0)
    ensures Apply(schemas, store, Plan(schemas, store, w).value.0) == Some(Plan(schemas, store, w).value.1)
  {
    hide ReplaceAll, MutateAll, DeleteAll, Resolves, DirtyIn, Blank, HasFeature, Complete, Dirties, NulFree;
    var (logged, next) := Plan(schemas, store, w).value;
    NothingToApply(schemas, store);
    NothingToApply(schemas, next);
    forall i | 0 <= i < |logged.invalidations|
      ensures Resolves(next, logged.mutations + logged.replacements, logged.invalidations[i])
    {
      var x := logged.invalidations[i];
      match w
      case Insert(input) =>
        DirtyComesFrom(schemas, [input], x);
        assert Dirties(schemas, [input][0], x);
        MutateCompletes(schemas, store, input);
        CompleteResolves(schemas, next, logged.mutations + logged.replacements, input, x);
      case Put(inputs) =>
        DirtyComesFrom(schemas, inputs, x);
        var j :| 0 <= j < |inputs| && Dirties(schemas, inputs[j], x);
        ReplaceAllComplete(schemas, store, inputs, inputs[j]);
        CompleteResolves(schemas, next, logged.mutations + logged.replacements, inputs[j], x);
      case SetFeature(change) => OwnTenant(store, logged.mutations + logged.replacements, change);
      case Remove(_) =>
    }
  }

  lemma OwnTenant(store: Store, inputs: seq<RecordInput>, x: Invalidation)
    requires !Blank(x.tenantId) && HasFeature(store, x, x.tenantId)
    ensures Resolves(store, inputs, x)
  {
    hide Blank, HasFeature;
    assert Tenants(store, inputs, x) == {x.tenantId};
  }

  lemma NothingToApply(schemas: seq<TableSchema>, store: Store)
    ensures ReplaceAll(schemas, store, []) == MutateAll(schemas, store, []) == DeleteAll(schemas, store, []) ==
            Some(store)
  {
  }

  // ---------------------------------------------------------------- replay under changed schemas

  function Tables(w: Writes): set<string>
  {
    (set i | 0 <= i < |w.replacements| :: w.replacements[i].table)
    + (set i | 0 <= i < |w.mutations| :: w.mutations[i].table)
    + (set i | 0 <= i < |w.deletions| :: w.deletions[i].table)
  }

  /** Replay cannot tell these apart: it reads the identity and the vector columns only. */
  predicate SameShape(a: Option<TableSchema>, b: Option<TableSchema>)
  {
    if a.None? || b.None? then a == b
    else
      && a.value.primaryId == b.value.primaryId && a.value.tenant == b.value.tenant
      && a.value.vectors == b.value.vectors
  }

  /** The lists name such schemas for these tables. */
  ghost predicate SameFor(a: seq<TableSchema>, b: seq<TableSchema>, tables: set<string>)
  {
    forall t | t in tables :: SameShape(Find(a, t), Find(b, t))
  }

  lemma {:induction false} SameReplace(a: seq<TableSchema>, b: seq<TableSchema>, store: Store, inputs: seq<RecordInput>)
    requires forall i | 0 <= i < |inputs| :: SameShape(Find(a, inputs[i].table), Find(b, inputs[i].table))
    ensures ReplaceAll(a, store, inputs) == ReplaceAll(b, store, inputs)
    decreases |inputs|
  {
    hide Find;
    if inputs != [] {
      var x, y := Find(a, inputs[0].table), Find(b, inputs[0].table);
      assert SameShape(x, y);
      if x.Some? {
        assert Replace(store, x.value, inputs[0]) == Replace(store, y.value, inputs[0]);
        hide Replace;
        var next := Replace(store, x.value, inputs[0]);
        if next.Some? { SameReplace(a, b, next.value, inputs[1..]); }
      }
    }
  }

  lemma {:induction false} SameMutate(a: seq<TableSchema>, b: seq<TableSchema>, store: Store, inputs: seq<RecordInput>)
    requires forall i | 0 <= i < |inputs| :: SameShape(Find(a, inputs[i].table), Find(b, inputs[i].table))
    ensures MutateAll(a, store, inputs) == MutateAll(b, store, inputs)
    decreases |inputs|
  {
    hide Find;
    if inputs != [] {
      var x, y := Find(a, inputs[0].table), Find(b, inputs[0].table);
      assert SameShape(x, y);
      if x.Some? {
        assert Mutate(store, x.value, inputs[0]) == Mutate(store, y.value, inputs[0]);
        hide Mutate;
        var next := Mutate(store, x.value, inputs[0]);
        if next.Some? { SameMutate(a, b, next.value, inputs[1..]); }
      }
    }
  }

  lemma {:induction false} SameDelete(a: seq<TableSchema>, b: seq<TableSchema>, store: Store, ds: seq<RecordDeletion>)
    requires forall i | 0 <= i < |ds| :: SameShape(Find(a, ds[i].table), Find(b, ds[i].table))
    ensures DeleteAll(a, store, ds) == DeleteAll(b, store, ds)
    decreases |ds|
  {
    hide Find, Delete;
    if ds != [] {
      assert SameShape(Find(a, ds[0].table), Find(b, ds[0].table));
      var next := if Find(a, ds[0].table).None? then None else Delete(store, ds[0]);
      if next.Some? { SameDelete(a, b, next.value, ds[1..]); }
    }
  }

  /** Only the identity and vector columns of the tables written matter. */
  lemma SameApply(a: seq<TableSchema>, b: seq<TableSchema>, store: Store, w: Writes)
    requires SameFor(a, b, Tables(w))
    ensures Apply(a, store, w) == Apply(b, store, w)
  {
    hide Find, ReplaceAll, MutateAll, DeleteAll, Resolves, SameShape;
    assert forall i | 0 <= i < |w.replacements| :: w.replacements[i].table in Tables(w);
    assert forall i | 0 <= i < |w.mutations| :: w.mutations[i].table in Tables(w);
    assert forall i | 0 <= i < |w.deletions| :: w.deletions[i].table in Tables(w);
    SameReplace(a, b, store, w.replacements);
    var replaced := ReplaceAll(a, store, w.replacements);
    if replaced.Some? {
      SameMutate(a, b, replaced.value, w.mutations);
      var mutated := MutateAll(a, replaced.value, w.mutations);
      if mutated.Some? { SameDelete(a, b, mutated.value, w.deletions); }
    }
  }

  lemma {:induction false} SameApplyAll(a: seq<TableSchema>, b: seq<TableSchema>, store: Store, ws: seq<Writes>)
    requires forall i | 0 <= i < |ws| :: SameFor(a, b, Tables(ws[i]))
    ensures ApplyAll(a, store, ws) == ApplyAll(b, store, ws)
    decreases |ws|
  {
    hide Apply, SameFor, Tables;
    if ws != [] {
      SameApply(a, b, store, ws[0]);
      var next := Apply(a, store, ws[0]);
      if next.Some? { SameApplyAll(a, b, next.value, ws[1..]); }
    }
  }

  lemma {:induction false} ApplyAllSplit(schemas: seq<TableSchema>, store: Store, a: seq<Writes>, b: seq<Writes>)
    ensures ApplyAll(schemas, store, a + b) ==
            if ApplyAll(schemas, store, a).None? then None else ApplyAll(schemas, ApplyAll(schemas, store, a).value, b)
    decreases |a|
  {
    hide Apply;
    if a == [] {
      assert a + b == b;
    } else {
      assert (a + b)[1..] == a[1..] + b;
      var next := Apply(schemas, store, a[0]);
      if next.Some? { ApplyAllSplit(schemas, next.value, a[1..], b); }
    }
  }
}
