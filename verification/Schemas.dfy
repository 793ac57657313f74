/** Table schemas and their validation (crates/tracedb-core/src/lib.rs), and the ordered
    schema list with its upsert (crates/tracedb-query/src/lib.rs). */
module Schemas {
  import opened Ordering

  datatype VectorColumn = VectorColumn(name: string, dimensions: nat, sources: seq<string>)

  datatype TableSchema = TableSchema(name: string, primaryId: string, tenant: string, scalars: seq<string>,
                                     texts: seq<string>, vectors: seq<VectorColumn>)

  // ---------------------------------------------------------------- validation

  predicate IdentifierChar(c: char)
  {
    c == '_' || '0' <= c <= '9' || 'A' <= c <= 'Z' || 'a' <= c <= 'z'
  }

  /** Safe as a GraphQL name and not reserved; such a name has no white space to trim. */
  predicate Identifier(s: string)
  {
    && s != "" && !('0' <= s[0] <= '9') && !("__" <= s)
    && forall i | 0 <= i < |s| :: IdentifierChar(s[i])
  }

  predicate ColumnName(s: string)
  {
    Identifier(s) && s !in {"record_id", "version_id", "fields", "score"}
  }

  predicate ColumnSet(columns: seq<string>, taken: set<string>)
  {
    && (forall i | 0 <= i < |columns| :: ColumnName(columns[i]) && columns[i] !in taken)
    && (forall i, j | 0 <= i < j < |columns| :: columns[i] != columns[j])
  }

  predicate SourcesOk(sources: seq<string>, declared: set<string>)
  {
    && sources != [] && (forall i | 0 <= i < |sources| :: Identifier(sources[i]) && sources[i] in declared)
    && (forall i, j | 0 <= i < j < |sources| :: sources[i] != sources[j])
  }

  predicate VectorOk(v: VectorColumn, declared: set<string>)
  {
    ColumnName(v.name) && v.name !in declared && v.dimensions > 0 && SourcesOk(v.sources, declared)
  }

  predicate ValidSchema(s: TableSchema)
  {
    var identity := {s.primaryId, s.tenant};
    var declared := identity + Elements(s.scalars) + Elements(s.texts);
    && Identifier(s.name) && Identifier(s.primaryId) && Identifier(s.tenant) && s.primaryId != s.tenant
    && ColumnSet(s.scalars, identity) && ColumnSet(s.texts, identity + Elements(s.scalars))
    && (forall i | 0 <= i < |s.vectors| :: VectorOk(s.vectors[i], declared))
    && (forall i, j | 0 <= i < j < |s.vectors| :: s.vectors[i].name != s.vectors[j].name)
  }

  // ---------------------------------------------------------------- the list

  /** The first schema of that name. */
  function Find(schemas: seq<TableSchema>, name: string): (r: Option<TableSchema>)
    ensures r.Some? ==> r.value in schemas && r.value.name == name
  {
    if schemas == [] then None
    else if schemas[0].name == name then Some(schemas[0]) else Find(schemas[1..], name)
  }

  lemma {:induction false} FindUpsert(schemas: seq<TableSchema>, s: TableSchema, name: string)
    ensures Find(Upsert(schemas, s), name) == if name == s.name then Some(s) else Find(schemas, name)
  {
    if schemas != [] && schemas[0].name != s.name {
      FindUpsert(schemas[1..], s, name);
    }
  }

  predicate Has(schemas: seq<TableSchema>, name: string)
  {
    exists i | 0 <= i < |schemas| :: schemas[i].name == name
  }

  /** Replace the first schema of that name in place; append when there is none. */
  function Upsert(schemas: seq<TableSchema>, s: TableSchema): seq<TableSchema>
  {
    if schemas == [] then [s]
    else if schemas[0].name == s.name then [s] + schemas[1..]
    else [schemas[0]] + Upsert(schemas[1..], s)
  }

  function Upserts(schemas: seq<TableSchema>, changes: seq<TableSchema>): seq<TableSchema>
    decreases |changes|
  {
    if changes == [] then schemas else Upserts(Upsert(schemas, changes[0]), changes[1..])
  }

  predicate UniqueNames(schemas: seq<TableSchema>)
  {
    forall i, j | 0 <= i < j < |schemas| :: schemas[i].name != schemas[j].name
  }

  /** The last change to a name. */
  function Latest(changes: seq<TableSchema>, name: string): TableSchema
    requires Has(changes, name)
  {
    if Has(changes[1..], name) then Latest(changes[1..], name) else changes[0]
  }

  lemma HasTail(changes: seq<TableSchema>, name: string)
    requires changes != []
    ensures Has(changes, name) <==> changes[0].name == name || Has(changes[1..], name)
  {
    if Has(changes[1..], name) {
      var i :| 0 <= i < |changes[1..]| && changes[1..][i].name == name;
      assert changes[i + 1].name == name;
    }
    if Has(changes, name) && changes[0].name != name {
      var i :| 0 <= i < |changes| && changes[i].name == name;
      assert changes[1..][i - 1].name == name;
    }
  }

  /** The first place of `name`; the length when there is none. */
  function Place(schemas: seq<TableSchema>, name: string): (k: nat)
    ensures k <= |schemas| && (k < |schemas| ==> schemas[k].name == name)
    ensures forall i | 0 <= i < k :: schemas[i].name != name
  {
    if schemas == [] || schemas[0].name == name then 0 else 1 + Place(schemas[1..], name)
  }

  lemma {:induction false} UpsertAtPlace(schemas: seq<TableSchema>, s: TableSchema)
    ensures var k := Place(schemas, s.name);
            Upsert(schemas, s) == if k < |schemas| then schemas[k := s] else schemas + [s]
  {
    if schemas != [] {
      var first, rest := schemas[0], schemas[1..];
      assert schemas == [first] + rest;
      if first.name == s.name {
        assert [s] + rest == schemas[0 := s];
      } else {
        UpsertAtPlace(rest, s);
        var k := Place(rest, s.name);
        if k < |rest| {
          assert [first] + rest[k := s] == schemas[k + 1 := s];
        } else {
          assert [first] + (rest + [s]) == schemas + [s];
        }
      }
    }
  }

  /** Upsert changes the one schema of that name, or adds one at the end. */
  lemma UpsertShape(schemas: seq<TableSchema>, s: TableSchema)
    requires UniqueNames(schemas)
    ensures UniqueNames(Upsert(schemas, s))
    ensures if Has(schemas, s.name)
            then |Upsert(schemas, s)| == |schemas| &&
                 forall i | 0 <= i < |schemas| ::
                   Upsert(schemas, s)[i] == if schemas[i].name == s.name then s else schemas[i]
            else Upsert(schemas, s) == schemas + [s]
  {
    UpsertAtPlace(schemas, s);
  }

  /** What changes to a list leave: unique names, every changed name with its latest
      change, every other schema as it was. */
  lemma {:induction false} UpsertsLeave(schemas: seq<TableSchema>, changes: seq<TableSchema>)
    requires UniqueNames(schemas)
    ensures var r := Upserts(schemas, changes);
            && UniqueNames(r)
            && (forall n | Has(changes, n) :: Has(r, n))
            && (forall i | 0 <= i < |r| && Has(changes, r[i].name) :: r[i] == Latest(changes, r[i].name))
            && (forall s | s in schemas && !Has(changes, s.name) :: s in r)
    decreases |changes|
  {
    if changes != [] {
      var first, rest := changes[0], changes[1..];
      var next := Upsert(schemas, first);
      UpsertShape(schemas, first);
      UpsertsLeave(next, rest);
      var r := Upserts(schemas, changes);
      assert first in next by { FirstIsIn(schemas, first); }
      forall n | Has(changes, n) ensures Has(r, n) {
        HasTail(changes, n);
        if !Has(rest, n) { assert first in r; }
      }
      forall i | 0 <= i < |r| && Has(changes, r[i].name) ensures r[i] == Latest(changes, r[i].name) {
        HasTail(changes, r[i].name);
        if !Has(rest, r[i].name) {
          assert first in r;
          var j :| 0 <= j < |r| && r[j] == first;
          assert i == j;
        }
      }
      forall s | s in schemas && !Has(changes, s.name) ensures s in r {
        HasTail(changes, s.name);
        var i :| 0 <= i < |schemas| && schemas[i] == s;
        assert next[i] == s;
      }
    }
  }

  lemma FirstIsIn(schemas: seq<TableSchema>, s: TableSchema)
    requires UniqueNames(schemas)
    ensures s in Upsert(schemas, s)
  {
    UpsertShape(schemas, s);
    if Has(schemas, s.name) {
      var i :| 0 <= i < |schemas| && schemas[i].name == s.name;
      assert Upsert(schemas, s)[i] == s;
    }
  }

  /** Changes that all name schemas already there, with the values they already have,
      change nothing. */
  lemma {:induction false} SettledChanges(schemas: seq<TableSchema>, changes: seq<TableSchema>)
    requires UniqueNames(schemas) && forall n | Has(changes, n) :: Has(schemas, n)
    ensures var r := Upserts(schemas, changes);
            && |r| == |schemas|
            && forall i | 0 <= i < |r| ::
                 r[i] == if Has(changes, schemas[i].name) then Latest(changes, schemas[i].name) else schemas[i]
    decreases |changes|
  {
    if changes != [] {
      var first, rest := changes[0], changes[1..];
      var next := Upsert(schemas, first);
      HasTail(changes, first.name);
      assert Has(schemas, first.name);
      UpsertShape(schemas, first);
      assert forall i | 0 <= i < |next| :: next[i].name == schemas[i].name;
      forall n | Has(rest, n) ensures Has(next, n) {
        HasTail(changes, n);
        var i :| 0 <= i < |schemas| && schemas[i].name == n;
        assert next[i].name == n;
      }
      SettledChanges(next, rest);
      forall i | 0 <= i < |schemas|
        ensures Upserts(next, rest)[i] == if Has(changes, schemas[i].name) then Latest(changes, schemas[i].name)
                else schemas[i]
      {
        HasTail(changes, schemas[i].name);
      }
    }
  }

  /** Replaying changes over a list that already took them changes nothing, order included. */
  lemma UpsertsIdempotent(schemas: seq<TableSchema>, changes: seq<TableSchema>)
    requires UniqueNames(schemas)
    ensures Upserts(Upserts(schemas, changes), changes) == Upserts(schemas, changes)
  {
    UpsertsLeave(schemas, changes);
    var once := Upserts(schemas, changes);
    SettledChanges(once, changes);
    assert Upserts(once, changes) == once;
  }

  lemma {:induction false} UpsertsSplit(schemas: seq<TableSchema>, a: seq<TableSchema>, b: seq<TableSchema>)
    ensures Upserts(schemas, a + b) == Upserts(Upserts(schemas, a), b)
    decreases |a|
  {
    if a == [] {
      assert a + b == b;
    } else {
      assert (a + b)[1..] == a[1..] + b;
      UpsertsSplit(Upsert(schemas, a[0]), a[1..], b);
    }
  }

  /** Recovery's case: the list holds the changes `before` and `done`; replaying `done` and
      then `later` gives what applying all of them once gives. */
  lemma ReplayOverPrefix(before: seq<TableSchema>, done: seq<TableSchema>, later: seq<TableSchema>)
    ensures Upserts(Upserts([], before + done), done + later) == Upserts([], before + done + later)
  {
    UpsertsSplit([], before, done);
    UpsertsLeave([], before);
    UpsertsIdempotent(Upserts([], before), done);
    UpsertsSplit(Upserts([], before + done), done, later);
    UpsertsSplit([], before + done, later);
  }

  /** The loop over the changes of a replay. */
  method UpsertAll(schemas: seq<TableSchema>, changes: seq<TableSchema>) returns (r: seq<TableSchema>)
    ensures r == Upserts(schemas, changes)
  {
    r := schemas;
    var i := 0;
    while i < |changes|
      invariant 0 <= i <= |changes|
      invariant Upserts(r, changes[i..]) == Upserts(schemas, changes)
    {
      assert changes[i..][1..] == changes[i + 1..];
      r := Upsert(r, changes[i]);
      i := i + 1;
    }
    assert changes[i..] == [];
  }
}
