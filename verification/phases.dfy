/** The migrator's state and what each phase of a run does to it, as
    functions. `NotionMigrator` is proved against these. */
module Phases {
  import opened Notion
  import opened Text
  import opened Naming
  import opened Paging
  import opened Schema
  import opened Transfer

  /** `page_size` of every database query. */
  const PageSize: nat := 100

  /** The migrator's fields (`metadata`, `created_tables`, `lookup_tables`)
      and the destination database's tables, as rows handed to the inserts. */
  datatype State = State(metadata: map<string, TableDef>, createdTables: map<string, TableDef>,
                         lookupTables: map<string, TableDef>, store: map<string, seq<Row>>)

  /** Every defined table is registered under its own name and exists in the destination. */
  predicate DefinedExist(s: State)
  {
    forall n :: n in s.metadata ==> s.metadata[n].name == n && n in s.store
  }

  /** Every registry entry is an option table, the one defined under its name. */
  predicate RegistryDefined(s: State)
  {
    forall k :: k in s.lookupTables ==>
      s.lookupTables[k] == OptionTable(s.lookupTables[k].name)
      && s.lookupTables[k].name in s.metadata && s.metadata[s.lookupTables[k].name] == s.lookupTables[k]
  }

  /** Every created entry is a main table, the one defined under its name. */
  predicate CreatedDefined(s: State)
  {
    forall id :: id in s.createdTables ==>
      |s.createdTables[id].columns| > 0 && s.createdTables[id].columns[0] == PrimaryKey
      && s.createdTables[id].name in s.metadata && s.metadata[s.createdTables[id].name] == s.createdTables[id]
  }

  predicate ValidState(s: State)
  {
    DefinedExist(s) && RegistryDefined(s) && CreatedDefined(s)
  }

  datatype Step = Step(state: State, ok: bool)

  /** `_create_table_schema` for one database. `ok` is false where the source
      raises because a table of that name is already defined; the option
      tables defined before that point stay defined. */
  function SchemaStep(s: State, info: DetailedDb, mapper: Mapper): Step
    requires IsAscii(info.title)
  {
    var name := CleanTableName(info.title);
    if name in s.metadata then Step(s, false)
    else
      var main := MainTable(name, info.details, mapper);
      var reg := RegisterLookups(s.metadata[name := main], s.lookupTables, name, LookupProps(info.details.properties, mapper), mapper);
      if !reg.ok then Step(s.(metadata := reg.metadata, lookupTables := reg.lookupTables), false)
      else Step(State(reg.metadata, s.createdTables[info.id := main], reg.lookupTables, CreateAll(reg.metadata, s.store)), true)
  }

  /** The first `k` queries of `_migrate_database_data`, each with the cursor of the answer before. */
  function QueriesBefore(databaseId: string, responses: seq<Response<Page>>, k: nat): seq<Request>
    requires k <= |responses|
  {
    seq(k, j requires 0 <= j < k => Query(databaseId, CursorBefore(responses, j), PageSize))
  }

  lemma QueriesBeforeStep(databaseId: string, responses: seq<Response<Page>>, k: nat)
    requires k < |responses|
    ensures QueriesBefore(databaseId, responses, k + 1)
         == QueriesBefore(databaseId, responses, k) + [Query(databaseId, CursorBefore(responses, k), PageSize)]
  {
  }

  /** The requests of `_migrate_database_data`: one query per consumed answer. */
  function QueryRequests(databaseId: string, responses: seq<Response<Page>>): seq<Request>
    requires Ends(responses)
  {
    QueriesBefore(databaseId, responses, FirstFinal(responses) + 1)
  }

  /** `_migrate_database_data` for one database: every fetched page becomes a
      row of its main table, then the option tables are populated. */
  function MigrateStep(s: State, info: DetailedDb, responses: seq<Response<Page>>, mapper: Mapper): (r: State)
    requires ValidState(s) && info.id in s.createdTables && Ends(responses)
    ensures r.metadata == s.metadata && r.createdTables == s.createdTables && r.lookupTables == s.lookupTables
    ensures r.store.Keys == s.store.Keys
  {
    var t := s.createdTables[info.id].name;
    var props := info.details.properties;
    var inserted := s.store[t := s.store[t] + RowsOf(AllResults(Consumed(responses)), props, mapper)];
    s.(store := PopulateAll(inserted, s.lookupTables, t, props))
  }

  datatype Created = Created(state: State, count: nat)

  predicate TitlesAscii(dbs: seq<DetailedDb>)
  {
    forall i :: 0 <= i < |dbs| ==> IsAscii(dbs[i].title)
  }

  lemma TitlesAsciiSuffix(dbs: seq<DetailedDb>, i: nat)
    requires TitlesAscii(dbs) && i <= |dbs|
    ensures TitlesAscii(dbs[i..])
  {
    assert forall j :: 0 <= j < |dbs[i..]| ==> dbs[i..][j] == dbs[i + j];
  }

  /** The schema phase of `run`: the databases in order, stopping at the
      first that fails; `count` is how many succeeded. */
  function CreateSchemas(s: State, dbs: seq<DetailedDb>, mapper: Mapper): (r: Created)
    requires TitlesAscii(dbs)
    ensures r.count <= |dbs|
    decreases |dbs|
  {
    if dbs == [] then Created(s, 0)
    else
      var step := SchemaStep(s, dbs[0], mapper);
      if !step.ok then Created(step.state, 0)
      else
        TitlesAsciiSuffix(dbs, 1);
        var rest := CreateSchemas(step.state, dbs[1..], mapper);
        Created(rest.state, rest.count + 1)
  }

  /** Every database has a recorded main table and a query script that ends. */
  predicate Migratable(created: map<string, TableDef>, dbs: seq<DetailedDb>, query: string -> seq<Response<Page>>)
  {
    forall i :: 0 <= i < |dbs| ==> dbs[i].id in created && Ends(query(dbs[i].id))
  }

  /** The data phase from database `i` on. */
  function MigrateFrom(s: State, dbs: seq<DetailedDb>, i: nat, query: string -> seq<Response<Page>>, mapper: Mapper): State
    requires ValidState(s) && Migratable(s.createdTables, dbs, query) && i <= |dbs|
    decreases |dbs| - i
  {
    if i == |dbs| then s
    else MigrateFrom(MigrateStep(s, dbs[i], query(dbs[i].id), mapper), dbs, i + 1, query, mapper)
  }

  /** The data phase of `run`: the databases in order. */
  function MigrateAll(s: State, dbs: seq<DetailedDb>, query: string -> seq<Response<Page>>, mapper: Mapper): State
    requires ValidState(s) && Migratable(s.createdTables, dbs, query)
  {
    MigrateFrom(s, dbs, 0, query, mapper)
  }

  /** Proof helper: the schema phase unfolded by one iteration. */
  lemma CreateSchemasStep(s: State, dbs: seq<DetailedDb>, mapper: Mapper)
    requires TitlesAscii(dbs) && dbs != []
    ensures TitlesAscii(dbs[1..])
    ensures var step := SchemaStep(s, dbs[0], mapper);
      var rest := CreateSchemas(step.state, dbs[1..], mapper);
      CreateSchemas(s, dbs, mapper) == if step.ok then Created(rest.state, rest.count + 1) else Created(step.state, 0)
  {
    TitlesAsciiSuffix(dbs, 1);
  }

  /** When every database's schema is created, the state is consistent and
      records a main table for each of them. */
  lemma {:induction false} CreateSchemasValid(s: State, dbs: seq<DetailedDb>, mapper: Mapper)
    requires TitlesAscii(dbs)
    requires ValidState(s) && CreateSchemas(s, dbs, mapper).count == |dbs|
    ensures var r := CreateSchemas(s, dbs, mapper).state;
      ValidState(r) && forall i :: 0 <= i < |dbs| ==> dbs[i].id in r.createdTables
    decreases |dbs|
  {
    if dbs != [] {
      CreateSchemasStep(s, dbs, mapper);
      var step := SchemaStep(s, dbs[0], mapper);
      SchemaStepRecords(s, dbs[0], mapper);
      SchemaStepValid(s, dbs[0], mapper, step.state);
      CreateSchemasValid(step.state, dbs[1..], mapper);
      CreateSchemasKeepsCreated(step.state, dbs[1..], mapper);
      var r := CreateSchemas(step.state, dbs[1..], mapper).state;
      forall i | 0 <= i < |dbs| ensures dbs[i].id in r.createdTables {
        if i > 0 { assert dbs[i] == dbs[1..][i - 1]; }
      }
    }
  }

  /** When the schema phase stops early, the databases before the one that
      stopped it all succeeded, and that one's step failed from the state
      they left. */
  lemma {:induction false} CreateSchemasStops(s: State, dbs: seq<DetailedDb>, mapper: Mapper)
    requires TitlesAscii(dbs) && CreateSchemas(s, dbs, mapper).count < |dbs|
    ensures var c := CreateSchemas(s, dbs, mapper);
      TitlesAscii(dbs[..c.count])
      && CreateSchemas(s, dbs[..c.count], mapper).count == c.count
      && SchemaStep(CreateSchemas(s, dbs[..c.count], mapper).state, dbs[c.count], mapper) == Step(c.state, false)
    decreases |dbs|
  {
    var c := CreateSchemas(s, dbs, mapper);
    TitlesAsciiPrefix(dbs, c.count);
    var step := SchemaStep(s, dbs[0], mapper);
    CreateSchemasStep(s, dbs, mapper);
    if step.ok {
      CreateSchemasStops(step.state, dbs[1..], mapper);
      CreateSchemasPrefix(s, dbs, c.count, mapper);
      assert dbs[c.count] == dbs[1..][c.count - 1];
    } else {
      assert dbs[..0] == [];
    }
  }

  /** Proof helper: the schema phase over the first `k` databases, unfolded by
      one successful iteration. */
  lemma CreateSchemasPrefix(s: State, dbs: seq<DetailedDb>, k: nat, mapper: Mapper)
    requires TitlesAscii(dbs) && 0 < k <= |dbs| && SchemaStep(s, dbs[0], mapper).ok
    ensures TitlesAscii(dbs[..k]) && TitlesAscii(dbs[1..][..k - 1])
    ensures var rest := CreateSchemas(SchemaStep(s, dbs[0], mapper).state, dbs[1..][..k - 1], mapper);
      CreateSchemas(s, dbs[..k], mapper) == Created(rest.state, rest.count + 1)
  {
    TitlesAsciiPrefix(dbs, k);
    CreateSchemasStep(s, dbs[..k], mapper);
    assert dbs[..k][0] == dbs[0] && dbs[..k][1..] == dbs[1..][..k - 1];
  }

  lemma TitlesAsciiPrefix(dbs: seq<DetailedDb>, i: nat)
    requires TitlesAscii(dbs) && i <= |dbs|
    ensures TitlesAscii(dbs[..i])
  {
    assert forall k :: 0 <= k < i ==> dbs[..i][k] == dbs[k];
  }

  /** The data phase only writes rows: the definitions and registries stay
      as they were, no table appears or disappears, and the state stays
      consistent. */
  lemma {:induction false} MigrateFromKeeps(s: State, dbs: seq<DetailedDb>, i: nat, query: string -> seq<Response<Page>>, mapper: Mapper)
    requires ValidState(s) && Migratable(s.createdTables, dbs, query) && i <= |dbs|
    ensures var r := MigrateFrom(s, dbs, i, query, mapper);
      ValidState(r) && r.metadata == s.metadata && r.createdTables == s.createdTables
      && r.lookupTables == s.lookupTables && r.store.Keys == s.store.Keys
    decreases |dbs| - i
  {
    if i < |dbs| {
      var t := s.createdTables[dbs[i].id].name;
      MigrateStepIs(s, dbs[i], query(dbs[i].id), mapper,
        s.store[t := s.store[t] + RowsOf(AllResults(Consumed(query(dbs[i].id))), dbs[i].details.properties, mapper)]);
      MigrateFromKeeps(MigrateStep(s, dbs[i], query(dbs[i].id), mapper), dbs, i + 1, query, mapper);
    }
  }

  /** Proof helper: what a successful schema step does to `createdTables`. */
  lemma SchemaStepRecords(s: State, info: DetailedDb, mapper: Mapper)
    requires IsAscii(info.title)
    ensures var step := SchemaStep(s, info, mapper);
      step.ok ==> step.state.createdTables == s.createdTables[info.id := MainTable(CleanTableName(info.title), info.details, mapper)]
  {
  }

  /** The schema phase never forgets a created table. */
  lemma {:induction false} CreateSchemasKeepsCreated(s: State, dbs: seq<DetailedDb>, mapper: Mapper)
    requires TitlesAscii(dbs)
    ensures s.createdTables.Keys <= CreateSchemas(s, dbs, mapper).state.createdTables.Keys
    decreases |dbs|
  {
    if dbs != [] {
      CreateSchemasStep(s, dbs, mapper);
      var step := SchemaStep(s, dbs[0], mapper);
      SchemaStepRecords(s, dbs[0], mapper);
      SchemaStepSpec(s, dbs[0], mapper);
      if step.ok {
        CreateSchemasKeepsCreated(step.state, dbs[1..], mapper);
      }
    }
  }

  /** A schema step never drops a definition from the `MetaData`, and a
      successful one defines the database's table name. */
  lemma SchemaStepKeepsDefined(s: State, info: DetailedDb, mapper: Mapper)
    requires IsAscii(info.title)
    ensures var r := SchemaStep(s, info, mapper);
      s.metadata.Keys <= r.state.metadata.Keys && (r.ok ==> CleanTableName(info.title) in r.state.metadata)
  {
    var name := CleanTableName(info.title);
    if name !in s.metadata {
      RegisterLookupsKeeps(s.metadata[name := MainTable(name, info.details, mapper)], s.lookupTables, name,
                           LookupProps(info.details.properties, mapper), mapper);
    }
  }

  /** The schema phase never drops a definition from the `MetaData`. */
  lemma {:induction false} CreateSchemasKeepsDefined(s: State, dbs: seq<DetailedDb>, mapper: Mapper)
    requires TitlesAscii(dbs)
    ensures s.metadata.Keys <= CreateSchemas(s, dbs, mapper).state.metadata.Keys
    decreases |dbs|
  {
    if dbs != [] {
      CreateSchemasStep(s, dbs, mapper);
      var step := SchemaStep(s, dbs[0], mapper);
      SchemaStepKeepsDefined(s, dbs[0], mapper);
      if step.ok {
        CreateSchemasKeepsDefined(step.state, dbs[1..], mapper);
      }
    }
  }

  /** A successful schema step keeps the state consistent. */
  lemma SchemaStepValid(s: State, info: DetailedDb, mapper: Mapper, r: State)
    requires ValidState(s) && IsAscii(info.title) && SchemaStep(s, info, mapper) == Step(r, true)
    ensures ValidState(r)
  {
    SchemaStepDefinedExist(s, info, mapper, r);
    SchemaStepRegistryDefined(s, info, mapper, r);
    SchemaStepCreatedDefined(s, info, mapper, r);
  }

  lemma SchemaStepDefinedExist(s: State, info: DetailedDb, mapper: Mapper, r: State)
    requires ValidState(s) && IsAscii(info.title) && SchemaStep(s, info, mapper) == Step(r, true)
    ensures DefinedExist(r)
  {
    var name := CleanTableName(info.title);
    var m1 := s.metadata[name := MainTable(name, info.details, mapper)];
    var lps := LookupProps(info.details.properties, mapper);
    var names := LookupNames(name, lps, mapper);
    RegisterLookupsDefines(m1, s.lookupTables, name, lps, mapper);
    forall n | n in r.metadata ensures r.metadata[n].name == n && n in r.store {
      if n !in m1 {
        var i :| 0 <= i < |names| && names[i] == n;
      }
    }
  }

  lemma SchemaStepRegistryDefined(s: State, info: DetailedDb, mapper: Mapper, r: State)
    requires ValidState(s) && IsAscii(info.title) && SchemaStep(s, info, mapper) == Step(r, true)
    ensures RegistryDefined(r)
  {
    var name := CleanTableName(info.title);
    var m1 := s.metadata[name := MainTable(name, info.details, mapper)];
    var lps := LookupProps(info.details.properties, mapper);
    var keys := LookupKeys(name, lps);
    RegisterLookupsDefines(m1, s.lookupTables, name, lps, mapper);
    RegisterLookupsTables(m1, s.lookupTables, name, lps, mapper);
    forall k | k in r.lookupTables
      ensures r.lookupTables[k] == OptionTable(r.lookupTables[k].name)
      ensures r.lookupTables[k].name in r.metadata && r.metadata[r.lookupTables[k].name] == r.lookupTables[k]
    {
      if k in keys {
        var i :| 0 <= i < |keys| && keys[i] == k;
      } else {
        assert s.lookupTables[k].name in s.metadata;
      }
    }
  }

  lemma SchemaStepCreatedDefined(s: State, info: DetailedDb, mapper: Mapper, r: State)
    requires ValidState(s) && IsAscii(info.title) && SchemaStep(s, info, mapper) == Step(r, true)
    ensures CreatedDefined(r)
  {
    var name := CleanTableName(info.title);
    var m1 := s.metadata[name := MainTable(name, info.details, mapper)];
    RegisterLookupsDefines(m1, s.lookupTables, name, LookupProps(info.details.properties, mapper), mapper);
    forall id | id in r.createdTables
      ensures |r.createdTables[id].columns| > 0 && r.createdTables[id].columns[0] == PrimaryKey
      ensures r.createdTables[id].name in r.metadata && r.metadata[r.createdTables[id].name] == r.createdTables[id]
    {
      if id != info.id {
        assert s.createdTables[id].name in s.metadata;
      }
    }
  }

  /** A schema step succeeds exactly when the table name and the option
      table names are all new and distinct. On failure nothing is recorded
      as created and no table is created. */
  lemma SchemaStepSpec(s: State, info: DetailedDb, mapper: Mapper)
    requires IsAscii(info.title)
    ensures var name := CleanTableName(info.title);
      var names := LookupNames(name, LookupProps(info.details.properties, mapper), mapper);
      var isNew := name !in s.metadata && FreshNames(s.metadata[name := MainTable(name, info.details, mapper)], names);
      SchemaStep(s, info, mapper).ok <==> isNew
    ensures !SchemaStep(s, info, mapper).ok ==>
      var r := SchemaStep(s, info, mapper).state;
      r.createdTables == s.createdTables && r.store == s.store
  {
    var name := CleanTableName(info.title);
    if name !in s.metadata {
      var m1 := s.metadata[name := MainTable(name, info.details, mapper)];
      RegisterLookupsOk(m1, s.lookupTables, name, LookupProps(info.details.properties, mapper), mapper);
    }
  }

  /** A successful schema step records the main table under the database
      id, makes it and one option table per lookup property exist, registers
      each option table under its registry key, and leaves every existing
      table's rows alone. */
  lemma SchemaStepSuccess(s: State, info: DetailedDb, mapper: Mapper)
    requires IsAscii(info.title) && SchemaStep(s, info, mapper).ok
    ensures var r := SchemaStep(s, info, mapper).state;
      var name := CleanTableName(info.title);
      var lps := LookupProps(info.details.properties, mapper);
      var names := LookupNames(name, lps, mapper);
      r.createdTables == s.createdTables[info.id := MainTable(name, info.details, mapper)]
      && name in r.store && r.store[name] == (if name in s.store then s.store[name] else [])
      && (forall i :: 0 <= i < |lps| ==>
            RegistryKey(name, lps[i].name) in r.lookupTables
            && r.lookupTables[RegistryKey(name, lps[i].name)] == OptionTable(names[i])
            && names[i] in r.store)
      && (forall n :: n in s.store ==> n in r.store && r.store[n] == s.store[n])
  {
    var name := CleanTableName(info.title);
    var m1 := s.metadata[name := MainTable(name, info.details, mapper)];
    var lps := LookupProps(info.details.properties, mapper);
    RegisterLookupsDefines(m1, s.lookupTables, name, lps, mapper);
    RegisterLookupsTables(m1, s.lookupTables, name, lps, mapper);
    var keys := LookupKeys(name, lps);
    assert forall i :: 0 <= i < |lps| ==> keys[i] == RegistryKey(name, lps[i].name);
  }

  /** Two databases whose titles clean to the same table name cannot both be
      created: the second fails, whatever else it contains. In particular the
      same database cannot be created twice. */
  lemma SameTableNameFails(s: State, a: DetailedDb, b: DetailedDb, mapper: Mapper)
    requires IsAscii(a.title) && IsAscii(b.title) && CleanTableName(a.title) == CleanTableName(b.title)
    requires SchemaStep(s, a, mapper).ok
    ensures !SchemaStep(SchemaStep(s, a, mapper).state, b, mapper).ok
  {
    var name := CleanTableName(a.title);
    var m1 := s.metadata[name := MainTable(name, a.details, mapper)];
    RegisterLookupsDefines(m1, s.lookupTables, name, LookupProps(a.details.properties, mapper), mapper);
  }

  /** Proof helper: the data step split at the point the pages are
      inserted, and the state it leaves stays valid. */
  lemma MigrateStepIs(s: State, info: DetailedDb, responses: seq<Response<Page>>, mapper: Mapper, inserted: map<string, seq<Row>>)
    requires ValidState(s) && info.id in s.createdTables && Ends(responses)
    requires var t := s.createdTables[info.id].name;
      inserted == s.store[t := s.store[t] + RowsOf(AllResults(Consumed(responses)), info.details.properties, mapper)]
    ensures RegistryInStore(s.lookupTables, inserted)
    ensures MigrateStep(s, info, responses, mapper)
         == s.(store := PopulateAll(inserted, s.lookupTables, s.createdTables[info.id].name, info.details.properties))
    ensures ValidState(MigrateStep(s, info, responses, mapper))
  {
    var r := MigrateStep(s, info, responses, mapper);
    assert forall n :: n in s.store <==> n in r.store;
  }

  /** Migrating one database appends one row per fetched page, in order, to
      its main table; any other table that is not a registered option table
      is untouched, and no table loses or changes a row. */
  lemma MigrateStepRows(s: State, info: DetailedDb, responses: seq<Response<Page>>, mapper: Mapper)
    requires ValidState(s) && info.id in s.createdTables && Ends(responses)
    ensures var r := MigrateStep(s, info, responses, mapper);
      var t := s.createdTables[info.id].name;
      r.store[t] == s.store[t] + RowsOf(AllResults(Consumed(responses)), info.details.properties, mapper)
      && (forall n :: n in s.store && n != t && (forall k :: k in s.lookupTables ==> s.lookupTables[k].name != n) ==> r.store[n] == s.store[n])
      && (forall n :: n in s.store ==> |s.store[n]| <= |r.store[n]| && r.store[n][..|s.store[n]|] == s.store[n])
  {
    var t := s.createdTables[info.id].name;
    var props := info.details.properties;
    var added := RowsOf(AllResults(Consumed(responses)), props, mapper);
    var inserted := s.store[t := s.store[t] + added];
    // The main table is not an option table: their first columns differ.
    forall k | k in s.lookupTables ensures s.lookupTables[k].name != t {
      assert s.lookupTables[k].columns[0].name == "id";
      assert s.metadata[t].columns[0].name == "notion_id";
    }
    PopulateAllOnlyAppends(inserted, s.lookupTables, t, props);
    forall n | n in s.store ensures |s.store[n]| <= |inserted[n]| && inserted[n][..|s.store[n]|] == s.store[n] {
      if n == t {
        assert inserted[n][..|s.store[n]|] == s.store[n];
      }
    }
  }

  /** The page batches of the three-request example: 100, 100 and 37 pages
      take three queries and yield 237 rows. */
  lemma ThreeBatches(responses: seq<Response<Page>>)
    requires |responses| == 3
    requires responses[0].hasMore && responses[1].hasMore && !responses[2].hasMore
    requires |responses[0].results| == 100 && |responses[1].results| == 100 && |responses[2].results| == 37
    ensures Ends(responses) && |Consumed(responses)| == 3 && TotalResults(Consumed(responses)) == 237
  {
    assert Ends(responses) by { assert !responses[2].hasMore; }
    assert Consumed(responses) == responses[..3];
    assert responses[..0] == [];
    AllResultsStep(responses, 0);
    AllResultsStep(responses, 1);
    AllResultsStep(responses, 2);
  }
}
