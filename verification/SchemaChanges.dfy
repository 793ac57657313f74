/** Replaying writes under a table schema that came after them: which writes the new schema
    still accepts, and what it makes of the records (crates/tracedb-store/src/lib.rs). */
module SchemaChanges {
  import opened Ordering
  import opened Schemas
  import opened Records
  import opened Texts

  // ---------------------------------------------------------------- a commit, write by write

  datatype Op = Rep(input: RecordInput) | Mut(input: RecordInput) | Del(deletion: RecordDeletion)

  function TableOf(op: Op): string
  {
    if op.Del? then op.deletion.table else op.input.table
  }

  function OpKey(op: Op): string
  {
    if op.Del? then RecordKey(op.deletion.table, op.deletion.tenantId, op.deletion.id) else KeyOf(op.input)
  }

  function ApplyOp(schemas: seq<TableSchema>, store: Store, op: Op): Option<Store>
  {
    var schema := Find(schemas, TableOf(op));
    if schema.None? then None else
    match op
    case Rep(input) => Replace(store, schema.value, input)
    case Mut(input) => Mutate(store, schema.value, input)
    case Del(deletion) => Delete(store, deletion)
  }

  function ApplyOps(schemas: seq<TableSchema>, store: Store, ops: seq<Op>): Option<Store>
  {
    if ops == [] then Some(store) else
    var r := ApplyOps(schemas, store, ops[..|ops| - 1]);
    if r.None? then None else ApplyOp(schemas, r.value, ops[|ops| - 1])
  }

  function Reps(inputs: seq<RecordInput>): seq<Op>
  {
    if inputs == [] then [] else [Rep(inputs[0])] + Reps(inputs[1..])
  }

  function Muts(inputs: seq<RecordInput>): seq<Op>
  {
    if inputs == [] then [] else [Mut(inputs[0])] + Muts(inputs[1..])
  }

  function Dels(deletions: seq<RecordDeletion>): seq<Op>
  {
    if deletions == [] then [] else [Del(deletions[0])] + Dels(deletions[1..])
  }

  function Ops(w: Writes): seq<Op>
  {
    Reps(w.replacements) + (Muts(w.mutations) + Dels(w.deletions))
  }

  function AllOps(ws: seq<Writes>): seq<Op>
  {
    if ws == [] then [] else AllOps(ws[..|ws| - 1]) + Ops(ws[|ws| - 1])
  }

  lemma {:induction false} OpsSplit(schemas: seq<TableSchema>, store: Store, a: seq<Op>, b: seq<Op>)
    ensures ApplyOps(schemas, store, a + b) ==
            if ApplyOps(schemas, store, a).None? then None
            else ApplyOps(schemas, ApplyOps(schemas, store, a).value, b)
    decreases |b|
  {
    hide ApplyOp;
    if b == [] {
      assert a + b == a;
    } else {
      var n := |b| - 1;
      assert (a + b)[..|a| + n] == a + b[..n] && (a + b)[|a| + n] == b[n];
      OpsSplit(schemas, store, a, b[..n]);
    }
  }

  lemma OneOp(schemas: seq<TableSchema>, store: Store, op: Op)
    ensures ApplyOps(schemas, store, [op]) == ApplyOp(schemas, store, op)
  {
    hide ApplyOp;
    assert [op][..0] == [];
  }

  lemma {:induction false} RepsAreOps(schemas: seq<TableSchema>, store: Store, inputs: seq<RecordInput>)
    ensures ReplaceAll(schemas, store, inputs) == ApplyOps(schemas, store, Reps(inputs))
    decreases |inputs|
  {
    hide Replace, Find, ApplyOps;
    if inputs == [] {
      NoOps(schemas, store);
    } else {
      OpsSplit(schemas, store, [Rep(inputs[0])], Reps(inputs[1..]));
      OneOp(schemas, store, Rep(inputs[0]));
      var next := ApplyOp(schemas, store, Rep(inputs[0]));
      if next.Some? { RepsAreOps(schemas, next.value, inputs[1..]); }
    }
  }

  lemma {:induction false} MutsAreOps(schemas: seq<TableSchema>, store: Store, inputs: seq<RecordInput>)
    ensures MutateAll(schemas, store, inputs) == ApplyOps(schemas, store, Muts(inputs))
    decreases |inputs|
  {
    hide Mutate, Find, ApplyOps;
    if inputs == [] {
      NoOps(schemas, store);
    } else {
      OpsSplit(schemas, store, [Mut(inputs[0])], Muts(inputs[1..]));
      OneOp(schemas, store, Mut(inputs[0]));
      var next := ApplyOp(schemas, store, Mut(inputs[0]));
      if next.Some? { MutsAreOps(schemas, next.value, inputs[1..]); }
    }
  }

  lemma {:induction false} DelsAreOps(schemas: seq<TableSchema>, store: Store, deletions: seq<RecordDeletion>)
    ensures DeleteAll(schemas, store, deletions) == ApplyOps(schemas, store, Dels(deletions))
    decreases |deletions|
  {
    hide Delete, Find, ApplyOps;
    if deletions == [] {
      NoOps(schemas, store);
    } else {
      OpsSplit(schemas, store, [Del(deletions[0])], Dels(deletions[1..]));
      OneOp(schemas, store, Del(deletions[0]));
      var next := ApplyOp(schemas, store, Del(deletions[0]));
      if next.Some? { DelsAreOps(schemas, next.value, deletions[1..]); }
    }
  }

  lemma NoOps(schemas: seq<TableSchema>, store: Store)
    ensures ApplyOps(schemas, store, []) == Some(store)
  {
  }

  ghost predicate AllResolve(store: Store, w: Writes)
  {
    forall i | 0 <= i < |w.invalidations| :: Resolves(store, w.mutations + w.replacements, w.invalidations[i])
  }

  /** A commit is its writes one by one, and then its invalidations. */
  lemma ApplyIsOps(schemas: seq<TableSchema>, store: Store, w: Writes)
    ensures var r := ApplyOps(schemas, store, Ops(w));
            Apply(schemas, store, w) == if r.Some? && AllResolve(r.value, w) then r else None
  {
    hide ApplyOps, ReplaceAll, MutateAll, DeleteAll, Resolves, Reps, Muts, Dels;
    RepsAreOps(schemas, store, w.replacements);
    OpsSplit(schemas, store, Reps(w.replacements), Muts(w.mutations) + Dels(w.deletions));
    var replaced := ReplaceAll(schemas, store, w.replacements);
    if replaced.Some? {
      MutsAreOps(schemas, replaced.value, w.mutations);
      OpsSplit(schemas, replaced.value, Muts(w.mutations), Dels(w.deletions));
      var mutated := MutateAll(schemas, replaced.value, w.mutations);
      if mutated.Some? { DelsAreOps(schemas, mutated.value, w.deletions); }
    }
  }

  // ---------------------------------------------------------------- the features of a record

  predicate OfTable(table: string, key: string)
  {
    table + ['\0'] <= key
  }

  lemma KeyIsOfTable(table: string, other: string, tenant: string, id: string)
    requires '\0' !in table && '\0' !in other
    ensures OfTable(table, RecordKey(other, tenant, id)) <==> table == other
  {
    var k := RecordKey(other, tenant, id);
    if OfTable(table, k) {
      var rest := k[|table| + 1..];
      assert k == table + ['\0'] + rest;
      assert k[|table|] == '\0' && k[|other|] == '\0';
      assert forall n | 0 <= n < |table| :: k[n] == table[n];
      assert forall n | 0 <= n < |other| :: k[n] == other[n];
      assert table == k[..|table|] && other == k[..|other|];
    }
  }

  /** What a record kept of its features at the start, and whether it was written since. */
  datatype Track = Track(carried: set<string>, written: bool)

  function TrackOp(t: Track, op: Op, key: string): Track
  {
    if OpKey(op) != key then t else
    match op
    case Rep(_) => Track({}, true)
    case Mut(_) => Track(t.carried, true)
    case Del(_) => Track({}, false)
  }

  function TrackAll(base: Store, ops: seq<Op>, key: string): Track
  {
    if ops == [] then
      var r := LiveVersion(base, key);
      Track(if r.Some? then r.value.features else {}, false)
    else TrackOp(TrackAll(base, ops[..|ops| - 1], key), ops[|ops| - 1], key)
  }

  function NamesIn(schemas: seq<TableSchema>, table: string): set<string>
  {
    var schema := Find(schemas, table);
    if schema.Some? then VectorNames(schema.value) else {}
  }

  predicate FeaturesTracked(r: Option<StoredRecord>, t: Track, names: set<string>)
  {
    if r.None? then t.carried == {} else r.value.features == t.carried + if t.written then names else {}
  }

  lemma OpTracked(schemas: seq<TableSchema>, store: Store, op: Op, table: string, key: string, t: Track)
    requires NulFree(schemas) && '\0' !in table && OfTable(table, key) && ApplyOp(schemas, store, op).Some?
    requires FeaturesTracked(LiveVersion(store, key), t, NamesIn(schemas, table))
    ensures var next := ApplyOp(schemas, store, op).value;
            FeaturesTracked(LiveVersion(next, key), TrackOp(t, op, key), NamesIn(schemas, table))
  {
    hide RecordKey, IdentityOk, DimensionsOk, Find, OfTable;
    if OpKey(op) == key {
      var name := Find(schemas, TableOf(op)).value.name;
      match op
      case Rep(input) => KeyIsOfTable(table, name, input.tenantId, input.id);
      case Mut(input) => KeyIsOfTable(table, name, input.tenantId, input.id);
      case Del(d) => KeyIsOfTable(table, name, d.tenantId, d.id);
    }
  }

  /** After a replay a live record has the features it kept from the start and, if it was written
      since, the vector columns of the schema used. */
  lemma {:induction false} FeaturesAre(schemas: seq<TableSchema>, base: Store, ops: seq<Op>, table: string, key: string)
    requires NulFree(schemas) && '\0' !in table && OfTable(table, key) && ApplyOps(schemas, base, ops).Some?
    ensures FeaturesTracked(LiveVersion(ApplyOps(schemas, base, ops).value, key), TrackAll(base, ops, key),
                            NamesIn(schemas, table))
  {
    hide ApplyOp, NulFree, OfTable, NamesIn, TrackOp;
    if ops != [] {
      var init := ops[..|ops| - 1];
      FeaturesAre(schemas, base, init, table, key);
      OpTracked(schemas, ApplyOps(schemas, base, init).value, ops[|ops| - 1], table, key, TrackAll(base, init, key));
    }
  }

  lemma TableOfOp(schemas: seq<TableSchema>, op: Op, table: string)
    requires NulFree(schemas) && '\0' !in table && Find(schemas, TableOf(op)).Some?
    ensures OfTable(table, OpKey(op)) <==> TableOf(op) == table
  {
    hide Find, OfTable, RecordKey;
    var name := Find(schemas, TableOf(op)).value.name;
    match op
    case Rep(input) => KeyIsOfTable(table, name, input.tenantId, input.id);
    case Mut(input) => KeyIsOfTable(table, name, input.tenantId, input.id);
    case Del(d) => KeyIsOfTable(table, name, d.tenantId, d.id);
  }

  /** As in every valid schema. */
  predicate WellNamed(s: TableSchema) { '\0' !in s.name && s.primaryId != s.tenant }

  // ---------------------------------------------------------------- the identity of a record

  /** What a live record holds in the identity columns of a schema. */
  datatype Identity = Identity(primary: Option<Value>, tenant: Option<Value>)

  const NoIdentity := Identity(None, None)

  function Held(fields: Fields, column: string): Option<Value>
  {
    if column in fields then Some(fields[column]) else None
  }

  function IdentityIn(r: Option<StoredRecord>, schema: TableSchema): Identity
  {
    if r.None? then NoIdentity
    else Identity(Held(r.value.fields, schema.primaryId), Held(r.value.fields, schema.tenant))
  }

  /** A write under the schema names the record there; a deletion ends it. */
  function IdentityAfter(x: Identity, op: Op, key: string): Identity
  {
    if OpKey(op) != key then x
    else if op.Del? then NoIdentity
    else Identity(Some(Text(op.input.id)), Some(Text(op.input.tenantId)))
  }

  /** What replaying the writes under `schema` leaves there: the last write decides, and before
      the first one the record of the start. */
  function IdentityOf(base: Store, ops: seq<Op>, key: string, schema: TableSchema): Identity
  {
    if ops == [] then IdentityIn(LiveVersion(base, key), schema)
    else IdentityAfter(IdentityOf(base, ops[..|ops| - 1], key, schema), ops[|ops| - 1], key)
  }

  /** A column that the input leaves alone holds the name already, or nothing. */
  predicate KeepsName(held: Option<Value>, fields: Fields, column: string, name: string)
  {
    column in fields || held.None? || held.value == Text(name)
  }

  /** The schema takes the identity of the write: what the input says of it is right, and so is
      what a mutation finds in the columns that it leaves alone. */
  predicate IdentityFits(held: Identity, op: Op, schema: TableSchema)
  {
    op.Del? ||
    (&& IdentityOk(schema, op.input, op.input.fields)
     && (op.Mut? ==>
           && KeepsName(held.primary, op.input.fields, schema.primaryId, op.input.id)
           && KeepsName(held.tenant, op.input.fields, schema.tenant, op.input.tenantId)))
  }

  lemma RepIdentity(store: Store, schema: TableSchema, input: RecordInput)
    requires schema.primaryId != schema.tenant
    ensures var r := Replace(store, schema, input);
            && (r.Some? <==>
                  DimensionsOk(schema, input.fields) && IdentityFits(NoIdentity, Rep(input), schema))
            && (r.Some? ==> IdentityIn(LiveVersion(r.value, KeyOf(input)), schema) ==
                            Identity(Some(Text(input.id)), Some(Text(input.tenantId))))
  {
    hide RecordKey, DimensionsOk, VectorNames;
  }

  lemma MutIdentity(store: Store, schema: TableSchema, input: RecordInput)
    requires schema.primaryId != schema.tenant
    ensures var r := Mutate(store, schema, input);
            && (r.Some? <==>
                  && DimensionsOk(schema, input.fields)
                  && IdentityFits(IdentityIn(LiveVersion(store, KeyOf(input)), schema), Mut(input), schema))
            && (r.Some? ==> IdentityIn(LiveVersion(r.value, KeyOf(input)), schema) ==
                            Identity(Some(Text(input.id)), Some(Text(input.tenantId))))
  {
    hide RecordKey, DimensionsOk, VectorNames;
  }

  lemma OpIdentity(schemas: seq<TableSchema>, schema: TableSchema, store: Store, op: Op, key: string)
    requires NulFree(schemas) && WellNamed(schema) && Find(schemas, schema.name) == Some(schema)
    requires OfTable(schema.name, key) && ApplyOp(schemas, store, op).Some?
    ensures IdentityIn(LiveVersion(ApplyOp(schemas, store, op).value, key), schema) ==
            IdentityAfter(IdentityIn(LiveVersion(store, key), schema), op, key)
  {
    hide RecordKey, IdentityOk, DimensionsOk, Find, OfTable, IdentityFits, NulFree, VectorNames;
    TableOfOp(schemas, op, schema.name);
    if OpKey(op) == key {
      match op
      case Rep(input) => RepIdentity(store, schema, input);
      case Mut(input) => MutIdentity(store, schema, input);
      case Del(d) =>
    }
  }

  lemma {:induction false} IdentityIs(schemas: seq<TableSchema>, schema: TableSchema, base: Store, ops: seq<Op>,
                                      key: string)
    requires NulFree(schemas) && WellNamed(schema) && Find(schemas, schema.name) == Some(schema)
    requires OfTable(schema.name, key) && ApplyOps(schemas, base, ops).Some?
    ensures IdentityIn(LiveVersion(ApplyOps(schemas, base, ops).value, key), schema) ==
            IdentityOf(base, ops, key, schema)
  {
    hide ApplyOp, NulFree, OfTable, Find, IdentityAfter, WellNamed;
    if ops != [] {
      var init := ops[..|ops| - 1];
      IdentityIs(schemas, schema, base, init, key);
      OpIdentity(schemas, schema, ApplyOps(schemas, base, init).value, ops[|ops| - 1], key);
    }
  }

  // ---------------------------------------------------------------- two replays side by side

  /** The change keeps the identity columns, as it must while the table has live rows. */
  predicate KeepsIdentity(schemas: seq<TableSchema>, after: TableSchema)
  {
    var before := Find(schemas, after.name);
    before.Some? ==> before.value.primaryId == after.primaryId && before.value.tenant == after.tenant
  }

  /** The stores differ at most in the features of the table's records, and, unless the identity
      columns are kept, in their fields. */
  ghost predicate Alike(a: Store, b: Store, table: string, kept: bool)
  {
    a.Keys == b.Keys && forall k | k in a :: RecordAlike(a[k], b[k], OfTable(table, k), kept)
  }

  predicate RecordAlike(a: StoredRecord, b: StoredRecord, ofTable: bool, kept: bool)
  {
    && b.(features := a.features, fields := if kept then b.fields else a.fields) == a
    && (!ofTable ==> b == a)
  }

  /** The new schema takes the write: its vectors have the dimensions of the columns, and, unless
      the identity columns are kept, it names the record rightly there. */
  predicate OpTakes(held: Identity, op: Op, after: TableSchema, kept: bool)
  {
    TableOf(op) == after.name ==>
      (!op.Del? ==> DimensionsOk(after, op.input.fields)) && (kept || IdentityFits(held, op, after))
  }

  predicate OpFits(base: Store, earlier: seq<Op>, op: Op, after: TableSchema, kept: bool)
  {
    OpTakes(IdentityOf(base, earlier, OpKey(op), after), op, after, kept)
  }

  predicate SameIdentity(a: TableSchema, b: TableSchema)
  {
    a.primaryId == b.primaryId && a.tenant == b.tenant
  }

  lemma RepAlike(schema: TableSchema, changed: TableSchema, a: Store, b: Store, input: RecordInput, table: string,
                 kept: bool)
    requires Alike(a, b, table, kept) && (kept ==> SameIdentity(schema, changed)) && Replace(a, schema, input).Some?
    requires if OfTable(table, KeyOf(input)) then changed.primaryId != changed.tenant else changed == schema
    ensures var r := Replace(b, changed, input);
            && (r.Some? <==> OfTable(table, KeyOf(input)) ==>
                  DimensionsOk(changed, input.fields) && (kept || IdentityFits(NoIdentity, Rep(input), changed)))
            && (r.Some? ==> Alike(Replace(a, schema, input).value, r.value, table, kept))
  {
    hide RecordKey, OfTable, DimensionsOk, VectorNames;
  }

  lemma MutAlike(schema: TableSchema, changed: TableSchema, a: Store, b: Store, input: RecordInput, table: string,
                 kept: bool)
    requires Alike(a, b, table, kept) && (kept ==> SameIdentity(schema, changed)) && Mutate(a, schema, input).Some?
    requires if OfTable(table, KeyOf(input)) then changed.primaryId != changed.tenant else changed == schema
    ensures var r := Mutate(b, changed, input);
            && (r.Some? <==> OfTable(table, KeyOf(input)) ==>
                  && DimensionsOk(changed, input.fields)
                  && (kept || IdentityFits(IdentityIn(LiveVersion(b, KeyOf(input)), changed), Mut(input), changed)))
            && (r.Some? ==> Alike(Mutate(a, schema, input).value, r.value, table, kept))
  {
    hide RecordKey, OfTable, DimensionsOk, VectorNames, IdentityFits;
    var key := KeyOf(input);
    assert key in a ==> RecordAlike(a[key], b[key], OfTable(table, key), kept);
    if OfTable(table, key) { MutIdentity(b, changed, input); }
  }

  lemma DelAlike(a: Store, b: Store, d: RecordDeletion, table: string, kept: bool)
    requires Alike(a, b, table, kept) && Delete(a, d).Some?
    ensures Delete(b, d).Some? && Alike(Delete(a, d).value, Delete(b, d).value, table, kept)
  {
    hide RecordKey, OfTable, Blank;
    var key := RecordKey(d.table, d.tenantId, d.id);
    assert key in a ==> RecordAlike(a[key], b[key], OfTable(table, key), kept);
  }

  lemma OpAlike(schemas: seq<TableSchema>, after: TableSchema, a: Store, b: Store, op: Op, held: Identity, kept: bool)
    requires NulFree(schemas) && WellNamed(after) && (kept ==> KeepsIdentity(schemas, after))
    requires Alike(a, b, after.name, kept) && ApplyOp(schemas, a, op).Some?
    requires TableOf(op) == after.name ==> held == IdentityIn(LiveVersion(b, OpKey(op)), after)
    ensures var r := ApplyOp(Upsert(schemas, after), b, op);
            && (r.Some? <==> OpTakes(held, op, after, kept))
            && (r.Some? ==> Alike(ApplyOp(schemas, a, op).value, r.value, after.name, kept))
  {
    hide Find, Upsert, RecordKey, OfTable, DimensionsOk, NulFree, Alike, Delete, Replace, Mutate, IdentityIn,
         IdentityOk, KeepsName;
    FindUpsert(schemas, after, TableOf(op));
    TableOfOp(schemas, op, after.name);
    var x, y := Find(schemas, TableOf(op)).value, Find(Upsert(schemas, after), TableOf(op)).value;
    match op
    case Rep(input) => RepAlike(x, y, a, b, input, after.name, kept);
    case Mut(input) => MutAlike(x, y, a, b, input, after.name, kept);
    case Del(d) => DelAlike(a, b, d, after.name, kept);
  }

  /** Each write, after those before it. */
  ghost predicate AllOpsFit(base: Store, ops: seq<Op>, after: TableSchema, kept: bool)
  {
    forall i | 0 <= i < |ops| :: OpFits(base, ops[..i], ops[i], after, kept)
  }

  lemma {:induction false} OpsAlike(schemas: seq<TableSchema>, after: TableSchema, base: Store, ops: seq<Op>,
                                    kept: bool)
    requires NulFree(schemas) && WellNamed(after) && (kept ==> KeepsIdentity(schemas, after))
    requires ApplyOps(schemas, base, ops).Some?
    ensures var r := ApplyOps(Upsert(schemas, after), base, ops);
            && (r.Some? <==> AllOpsFit(base, ops, after, kept))
            && (r.Some? ==> Alike(ApplyOps(schemas, base, ops).value, r.value, after.name, kept))
  {
    hide ApplyOp, ApplyOps, NulFree, KeepsIdentity, Upsert, Alike, AllOpsFit, WellNamed, IdentityOf, OpTakes, Find;
    var changed := Upsert(schemas, after);
    if ops == [] {
      SameAlike(base, after.name, kept);
      NoOps(schemas, base);
      NoOps(changed, base);
      NoneFit(base, after, kept);
    } else {
      var init, last := ops[..|ops| - 1], ops[|ops| - 1];
      assert ops == init + [last];
      LastOp(schemas, base, init, last);
      LastOp(changed, base, init, last);
      OpsAlike(schemas, after, base, init, kept);
      LastFitsToo(base, init, last, after, kept);
      var r := ApplyOps(changed, base, init);
      if r.Some? {
        HeldBy(schemas, after, base, init, last);
        OpAlike(schemas, after, ApplyOps(schemas, base, init).value, r.value, last,
                IdentityOf(base, init, OpKey(last), after), kept);
      }
    }
  }

  /** What the record of the next write holds in the identity columns. */
  lemma HeldBy(schemas: seq<TableSchema>, after: TableSchema, base: Store, ops: seq<Op>, op: Op)
    requires NulFree(schemas) && WellNamed(after) && ApplyOps(Upsert(schemas, after), base, ops).Some?
    ensures var store := ApplyOps(Upsert(schemas, after), base, ops).value;
            TableOf(op) == after.name ==>
              IdentityIn(LiveVersion(store, OpKey(op)), after) == IdentityOf(base, ops, OpKey(op), after)
  {
    hide ApplyOps, NulFree, Upsert, IdentityOf, IdentityIn, OfTable, Find;
    if TableOf(op) == after.name {
      UpsertNulFree(schemas, after);
      FindUpsert(schemas, after, after.name);
      TableOfOp(Upsert(schemas, after), op, after.name);
      IdentityIs(Upsert(schemas, after), after, base, ops, OpKey(op));
    }
  }

  lemma LastOp(schemas: seq<TableSchema>, store: Store, init: seq<Op>, last: Op)
    ensures var r := ApplyOps(schemas, store, init);
            ApplyOps(schemas, store, init + [last]) == if r.None? then None else ApplyOp(schemas, r.value, last)
  {
    hide ApplyOp;
    assert (init + [last])[..|init|] == init;
  }

  lemma NoneFit(base: Store, after: TableSchema, kept: bool)
    ensures AllOpsFit(base, [], after, kept)
  {
  }

  lemma LastFitsToo(base: Store, init: seq<Op>, last: Op, after: TableSchema, kept: bool)
    ensures AllOpsFit(base, init + [last], after, kept) <==>
            AllOpsFit(base, init, after, kept) && OpFits(base, init, last, after, kept)
  {
    hide OpFits;
    var ops := init + [last];
    assert ops[|init|] == last && ops[..|init|] == init;
    assert forall i | 0 <= i < |init| :: ops[i] == init[i] && ops[..i] == init[..i];
  }

  lemma SameAlike(store: Store, table: string, kept: bool)
    ensures Alike(store, store, table, kept)
  {
  }

  // ---------------------------------------------------------------- the condition

  function KeyFor(x: Invalidation): string
  {
    RecordKey(x.table, x.tenantId, x.recordId)
  }

  /** A feature that a write left dirty is still a column, or the record kept it from the start. */
  predicate FeatureStays(base: Store, ops: seq<Op>, x: Invalidation, after: TableSchema)
  {
    OfTable(after.name, KeyFor(x)) ==>
      x.feature in VectorNames(after) || x.feature in TrackAll(base, ops, KeyFor(x)).carried
  }

  predicate FeaturesStay(base: Store, ops: seq<Op>, w: Writes, after: TableSchema)
  {
    forall i | 0 <= i < |w.invalidations| :: FeatureStays(base, ops, w.invalidations[i], after)
  }

  /** What a caller can check before changing the schema: every write since the checkpoint fits
      the new vector and identity columns, and every feature left dirty stays. */
  ghost predicate ChangeFits(base: Store, ws: seq<Writes>, after: TableSchema, kept: bool)
  {
    && AllOpsFit(base, AllOps(ws), after, kept)
    && forall n | 0 <= n < |ws| :: FeaturesStay(base, AllOps(ws[..n + 1]), ws[n], after)
  }

  lemma NamedResolves(store: Store, inputs: seq<RecordInput>, x: Invalidation)
    requires !Blank(x.tenantId)
    ensures Resolves(store, inputs, x) <==> HasFeature(store, x, x.tenantId)
  {
    hide Blank, HasFeature;
    assert Tenants(store, inputs, x) == {x.tenantId};
  }

  /** A feature present after one replay is present after the other if and only if it stays. */
  lemma FeatureSurvives(schemas: seq<TableSchema>, after: TableSchema, base: Store, ops: seq<Op>, x: Invalidation,
                        kept: bool)
    requires NulFree(schemas) && WellNamed(after) && (kept ==> KeepsIdentity(schemas, after))
    requires ApplyOps(schemas, base, ops).Some? && ApplyOps(Upsert(schemas, after), base, ops).Some?
    requires HasFeature(ApplyOps(schemas, base, ops).value, x, x.tenantId)
    ensures HasFeature(ApplyOps(Upsert(schemas, after), base, ops).value, x, x.tenantId) <==>
            FeatureStays(base, ops, x, after)
  {
    hide ApplyOps, OfTable, TrackAll, NulFree, RecordKey, VectorNames, Upsert, KeepsIdentity, Find;
    var key := KeyFor(x);
    var a, b := ApplyOps(schemas, base, ops).value, ApplyOps(Upsert(schemas, after), base, ops).value;
    OpsAlike(schemas, after, base, ops, kept);
    assert RecordAlike(a[key], b[key], OfTable(after.name, key), kept);
    if OfTable(after.name, key) {
      FeaturesAre(schemas, base, ops, after.name, key);
      UpsertNulFree(schemas, after);
      FeaturesAre(Upsert(schemas, after), base, ops, after.name, key);
      FindUpsert(schemas, after, after.name);
    }
  }

  lemma UpsertNulFree(schemas: seq<TableSchema>, s: TableSchema)
    requires NulFree(schemas) && WellNamed(s)
    ensures NulFree(Upsert(schemas, s))
  {
    UpsertAtPlace(schemas, s);
  }

  lemma ResolveAlike(schemas: seq<TableSchema>, after: TableSchema, base: Store, ops: seq<Op>, w: Writes, kept: bool)
    requires NulFree(schemas) && WellNamed(after) && (kept ==> KeepsIdentity(schemas, after)) && Named(w)
    requires ApplyOps(schemas, base, ops).Some? && ApplyOps(Upsert(schemas, after), base, ops).Some?
    requires AllResolve(ApplyOps(schemas, base, ops).value, w)
    ensures AllResolve(ApplyOps(Upsert(schemas, after), base, ops).value, w) <==> FeaturesStay(base, ops, w, after)
  {
    hide ApplyOps, NulFree, Upsert, KeepsIdentity, HasFeature, FeatureStays, Resolves, Blank;
    var inputs := w.mutations + w.replacements;
    var a, b := ApplyOps(schemas, base, ops).value, ApplyOps(Upsert(schemas, after), base, ops).value;
    forall i | 0 <= i < |w.invalidations|
      ensures Resolves(b, inputs, w.invalidations[i]) <==> FeatureStays(base, ops, w.invalidations[i], after)
    {
      var x := w.invalidations[i];
      NamedResolves(a, inputs, x);
      NamedResolves(b, inputs, x);
      FeatureSurvives(schemas, after, base, ops, x, kept);
    }
  }

  lemma OneMoreCommit(schemas: seq<TableSchema>, base: Store, ws: seq<Writes>)
    requires ws != []
    ensures var n := |ws| - 1;
            var r := ApplyAll(schemas, base, ws[..n]);
            ApplyAll(schemas, base, ws) == if r.None? then None else Apply(schemas, r.value, ws[n])
  {
    hide Apply;
    var n := |ws| - 1;
    assert ws == ws[..n] + [ws[n]];
    ApplyAllSplit(schemas, base, ws[..n], [ws[n]]);
    assert [ws[n]][1..] == [];
  }

  /** A replay that is accepted does its writes one by one. */
  lemma {:induction false} ReplayIsOps(schemas: seq<TableSchema>, base: Store, ws: seq<Writes>)
    requires ApplyAll(schemas, base, ws).Some?
    ensures ApplyAll(schemas, base, ws) == ApplyOps(schemas, base, AllOps(ws))
  {
    hide Apply, ApplyOps, Ops, ApplyAll;
    if ws == [] {
      NoOps(schemas, base);
      assert ApplyAll(schemas, base, []) == Some(base) by { NothingReplayed(schemas, base); }
    } else {
      var n := |ws| - 1;
      OneMoreCommit(schemas, base, ws);
      ReplayIsOps(schemas, base, ws[..n]);
      ApplyIsOps(schemas, ApplyAll(schemas, base, ws[..n]).value, ws[n]);
      OpsSplit(schemas, base, AllOps(ws[..n]), Ops(ws[n]));
    }
  }

  lemma NothingReplayed(schemas: seq<TableSchema>, base: Store)
    ensures ApplyAll(schemas, base, []) == Some(base)
  {
  }

  lemma ChangeFitsGrows(base: Store, init: seq<Writes>, w: Writes, after: TableSchema, kept: bool)
    ensures var ops := AllOps(init + [w]);
            ChangeFits(base, init + [w], after, kept) <==>
            && ChangeFits(base, init, after, kept) && AllOpsFit(base, ops, after, kept)
            && FeaturesStay(base, ops, w, after)
  {
    hide AllOps, OpFits, FeaturesStay, Ops;
    var ws := init + [w];
    AllOpsGrow(init, w);
    FitsBefore(base, AllOps(init), Ops(w), after, kept);
    assert ws[..|init| + 1] == ws && ws[|init|] == w;
    assert forall n | 0 <= n < |init| :: ws[n] == init[n] && ws[..n + 1] == init[..n + 1];
  }

  /** Writes that name their tenants and are accepted under one schema list are accepted under
      the list with one schema changed if and only if the change fits. */
  lemma {:induction false} ChangedReplay(schemas: seq<TableSchema>, after: TableSchema, base: Store, ws: seq<Writes>,
                                         kept: bool)
    requires NulFree(schemas) && WellNamed(after) && (kept ==> KeepsIdentity(schemas, after))
    requires (forall i | 0 <= i < |ws| :: Named(ws[i])) && ApplyAll(schemas, base, ws).Some?
    ensures ApplyAll(Upsert(schemas, after), base, ws).Some? <==> ChangeFits(base, ws, after, kept)
  {
    hide Apply, ApplyOps, Ops, AllOps, ApplyAll, NulFree, Upsert, KeepsIdentity, Named, FeaturesStay, AllOpsFit,
         AllResolve, ChangeFits, WellNamed;
    var changed := Upsert(schemas, after);
    if ws == [] {
      NothingReplayed(changed, base);
      NoChangeFits(base, after, kept);
    } else {
      var n := |ws| - 1;
      var init, w := ws[..n], ws[n];
      assert init + [w] == ws;
      OneMoreCommit(schemas, base, ws);
      OneMoreCommit(changed, base, ws);
      ChangedReplay(schemas, after, base, init, kept);
      ChangeFitsGrows(base, init, w, after, kept);
      if ApplyAll(changed, base, init).Some? { LastFits(schemas, after, base, init, w, kept); }
    }
  }

  lemma NoChangeFits(base: Store, after: TableSchema, kept: bool)
    ensures ChangeFits(base, [], after, kept)
  {
    NoneFit(base, after, kept);
  }

  lemma LastFits(schemas: seq<TableSchema>, after: TableSchema, base: Store, init: seq<Writes>, w: Writes, kept: bool)
    requires NulFree(schemas) && WellNamed(after) && (kept ==> KeepsIdentity(schemas, after)) && Named(w)
    requires ApplyAll(schemas, base, init).Some? && ApplyAll(Upsert(schemas, after), base, init).Some?
    requires Apply(schemas, ApplyAll(schemas, base, init).value, w).Some?
    ensures var ops := AllOps(init + [w]);
            Apply(Upsert(schemas, after), ApplyAll(Upsert(schemas, after), base, init).value, w).Some? <==>
            AllOpsFit(base, ops, after, kept) && FeaturesStay(base, ops, w, after)
  {
    hide Apply, ApplyOps, Ops, AllOps, ApplyAll, NulFree, Upsert, KeepsIdentity, Named, FeaturesStay, AllResolve,
         AllOpsFit, WellNamed;
    var changed, before, ops := Upsert(schemas, after), AllOps(init), Ops(w);
    ReplayIsOps(schemas, base, init);
    ReplayIsOps(changed, base, init);
    ApplyIsOps(schemas, ApplyAll(schemas, base, init).value, w);
    ApplyIsOps(changed, ApplyAll(changed, base, init).value, w);
    OpsSplit(schemas, base, before, ops);
    OpsSplit(changed, base, before, ops);
    AllOpsGrow(init, w);
    OpsAlike(schemas, after, base, before + ops, kept);
    if ApplyOps(changed, base, before + ops).Some? { ResolveAlike(schemas, after, base, before + ops, w, kept); }
  }

  lemma AllOpsGrow(init: seq<Writes>, w: Writes)
    ensures AllOps(init + [w]) == AllOps(init) + Ops(w)
  {
    hide Ops;
    assert (init + [w])[..|init|] == init;
  }

  lemma FitsBefore(base: Store, a: seq<Op>, b: seq<Op>, after: TableSchema, kept: bool)
    ensures AllOpsFit(base, a + b, after, kept) ==> AllOpsFit(base, a, after, kept)
  {
    hide OpFits;
    assert forall i | 0 <= i < |a| :: a[i] == (a + b)[i] && a[..i] == (a + b)[..i];
  }

  // ---------------------------------------------------------------- the records it builds

  /** A live record not written since the start is the one it was; one written since says which
      table it is of. */
  lemma {:induction false} LiveTracked(schemas: seq<TableSchema>, base: Store, ops: seq<Op>, table: string, key: string)
    requires NulFree(schemas) && '\0' !in table && OfTable(table, key) && ApplyOps(schemas, base, ops).Some?
    ensures var r := LiveVersion(ApplyOps(schemas, base, ops).value, key);
            r.Some? ==>
              if TrackAll(base, ops, key).written then r.value.table == table else r == LiveVersion(base, key)
  {
    hide ApplyOp, NulFree, OfTable, TrackOp;
    if ops != [] {
      var init, op := ops[..|ops| - 1], ops[|ops| - 1];
      LiveTracked(schemas, base, init, table, key);
      OneLiveTracked(schemas, ApplyOps(schemas, base, init).value, op, table, key, TrackAll(base, init, key));
    }
  }

  lemma OneLiveTracked(schemas: seq<TableSchema>, store: Store, op: Op, table: string, key: string, t: Track)
    requires NulFree(schemas) && '\0' !in table && OfTable(table, key) && ApplyOp(schemas, store, op).Some?
    ensures var r, u := LiveVersion(ApplyOp(schemas, store, op).value, key), TrackOp(t, op, key);
            if OpKey(op) != key then r == LiveVersion(store, key) && u == t
            else r.Some? ==> u.written && r.value.table == table
  {
    hide RecordKey, IdentityOk, DimensionsOk, Find, OfTable, VectorNames, NulFree;
    TableOfOp(schemas, op, table);
  }

  /** The record at `k`, if it is live and was written since, has the same columns either way. */
  predicate AgreesAt(base: Store, ops: seq<Op>, live: Store, before: set<string>, after: TableSchema, k: string)
  {
    k in live && !live[k].tombstoned && OfTable(after.name, k) && TrackAll(base, ops, k).written ==>
      TrackAll(base, ops, k).carried + before == TrackAll(base, ops, k).carried + VectorNames(after)
  }

  /** Every live record written since the start has the same columns either way. */
  ghost predicate ColumnsAgree(base: Store, ops: seq<Op>, live: Store, before: set<string>, after: TableSchema)
  {
    forall k :: AgreesAt(base, ops, live, before, after, k)
  }

  lemma ChangedNames(schemas: seq<TableSchema>, after: TableSchema)
    ensures NamesIn(Upsert(schemas, after), after.name) == VectorNames(after)
  {
    hide Find, Upsert;
    FindUpsert(schemas, after, after.name);
  }

  lemma LiveAlike(schemas: seq<TableSchema>, after: TableSchema, base: Store, ops: seq<Op>, kept: bool, k: string)
    requires NulFree(schemas) && WellNamed(after)
    requires ApplyOps(schemas, base, ops).Some? && ApplyOps(Upsert(schemas, after), base, ops).Some?
    requires kept || NoLiveRow(ApplyOps(schemas, base, ops).value, after.name)
    requires Alike(ApplyOps(schemas, base, ops).value, ApplyOps(Upsert(schemas, after), base, ops).value, after.name,
                   kept)
    ensures var a, b := ApplyOps(schemas, base, ops).value, ApplyOps(Upsert(schemas, after), base, ops).value;
            LiveVersion(b, k) == LiveVersion(a, k) <==>
            AgreesAt(base, ops, a, NamesIn(schemas, after.name), after, k)
  {
    hide ApplyOps, OfTable, TrackAll, NulFree, VectorNames, Upsert, Find, NamesIn;
    var a, b := ApplyOps(schemas, base, ops).value, ApplyOps(Upsert(schemas, after), base, ops).value;
    assert k in a ==> RecordAlike(a[k], b[k], OfTable(after.name, k), kept);
    if k in a && !a[k].tombstoned && OfTable(after.name, k) {
      UpsertNulFree(schemas, after);
      ChangedNames(schemas, after);
      FeaturesAre(schemas, base, ops, after.name, k);
      FeaturesAre(Upsert(schemas, after), base, ops, after.name, k);
      LiveTracked(schemas, base, ops, after.name, k);
      LiveTracked(Upsert(schemas, after), base, ops, after.name, k);
    }
  }

  /** An accepted replay under the changed schema builds the live records if and only if the
      columns agree: where identity is kept it differs in features only, and where it is not the
      table has no live row. */
  lemma ChangedRecords(schemas: seq<TableSchema>, after: TableSchema, base: Store, ops: seq<Op>, kept: bool)
    requires NulFree(schemas) && WellNamed(after) && (kept ==> KeepsIdentity(schemas, after))
    requires ApplyOps(schemas, base, ops).Some? && ApplyOps(Upsert(schemas, after), base, ops).Some?
    requires kept || NoLiveRow(ApplyOps(schemas, base, ops).value, after.name)
    ensures var a, b := ApplyOps(schemas, base, ops).value, ApplyOps(Upsert(schemas, after), base, ops).value;
            (forall k :: LiveVersion(b, k) == LiveVersion(a, k)) <==>
            ColumnsAgree(base, ops, a, NamesIn(schemas, after.name), after)
  {
    hide ApplyOps, OfTable, TrackAll, NulFree, VectorNames, Upsert, KeepsIdentity, Find, NamesIn, WellNamed, Alike;
    var a, b := ApplyOps(schemas, base, ops).value, ApplyOps(Upsert(schemas, after), base, ops).value;
    var before := NamesIn(schemas, after.name);
    OpsAlike(schemas, after, base, ops, kept);
    forall k ensures LiveVersion(b, k) == LiveVersion(a, k) <==> AgreesAt(base, ops, a, before, after, k) {
      LiveAlike(schemas, after, base, ops, kept, k);
    }
  }
}
