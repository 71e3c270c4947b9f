/** `NotionMigrator`: the object whose `metadata`, `created_tables` and
    `lookup_tables` fields a run fills in while it writes to the destination
    database. The Notion API is an `Api` script, the reply to the prompt a
    parameter, and the destination database the `store` field, which records
    each table's rows as the parameter maps handed to its inserts. */
module Migration {
  import opened Notion
  import opened Text
  import opened Naming
  import opened Paging
  import opened Titles
  import opened Schema
  import opened Transfer
  import opened Discovery
  import opened Plan
  import opened Confirm
  import opened Phases

  /** What the Notion client answers: the search answers in order, the
      details of each database, and the query answers of each database. */
  datatype Api = Api(search: seq<Response<DbObject>>, retrieve: string -> Details, query: string -> seq<Response<Page>>)

  /** Every paginated script ends (otherwise the source loops forever), and
      select and multi_select property names are ASCII. */
  ghost predicate WellBehaved(api: Api)
  {
    Ends(api.search)
    && (forall id :: Ends(api.query(id)))
    && (forall id :: OptionNamesAscii(api.retrieve(id).properties))
  }

  /** The phases of a run, in the order they happen; `Cleanup` is the
      `finally` clause. */
  datatype Event =
    | Discovered(databases: nat)
    | PlanShown(plan: seq<PlanRow>)
    | Confirmation(accepted: bool)
    | SchemaCreated(databaseId: string)
    | SchemaFailed(databaseId: string)
    | DataMigrated(databaseId: string, pages: nat)
    | Cleanup

  /** How `run` ends: returning early, raising out of the schema phase, or completing. */
  datatype Outcome = NothingToMigrate | Cancelled | Failed(databaseId: string) | Completed

  function CreatedEvents(dbs: seq<DetailedDb>, n: nat): seq<Event>
    requires n <= |dbs|
  {
    seq(n, i requires 0 <= i < n => SchemaCreated(dbs[i].id))
  }

  /** How many pages each database's query yields. */
  function PageCounts(dbs: seq<DetailedDb>, query: string -> seq<Response<Page>>): seq<nat>
    requires forall i :: 0 <= i < |dbs| ==> Ends(query(dbs[i].id))
  {
    seq(|dbs|, i requires 0 <= i < |dbs| => PageCount(dbs[i], query))
  }

  function PageCount(db: DetailedDb, query: string -> seq<Response<Page>>): nat
    requires Ends(query(db.id))
  {
    TotalResults(Consumed(query(db.id)))
  }

  lemma PageCountsPrefix(dbs: seq<DetailedDb>, query: string -> seq<Response<Page>>, i: nat)
    requires forall i :: 0 <= i < |dbs| ==> Ends(query(dbs[i].id))
    requires i <= |dbs|
    ensures i == |dbs| ==> PageCounts(dbs, query)[..i] == PageCounts(dbs, query)
    ensures i < |dbs| ==> PageCounts(dbs, query)[..i + 1] == PageCounts(dbs, query)[..i] + [TotalResults(Consumed(query(dbs[i].id)))]
  {
    var counts := PageCounts(dbs, query);
    if i < |dbs| {
      assert counts[..i + 1] == counts[..i] + [counts[i]];
    }
  }

  function MigratedEvents(dbs: seq<DetailedDb>, query: string -> seq<Response<Page>>): seq<Event>
    requires forall i :: 0 <= i < |dbs| ==> Ends(query(dbs[i].id))
  {
    var counts := PageCounts(dbs, query);
    seq(|dbs|, i requires 0 <= i < |dbs| => DataMigrated(dbs[i].id, counts[i]))
  }

  /** What the later phases need of the discovered databases: ASCII titles
      and option property names, and a query script that ends for each. */
  predicate Ready(dbs: seq<DetailedDb>, query: string -> seq<Response<Page>>)
  {
    TitlesAscii(dbs)
    && forall i :: 0 <= i < |dbs| ==> OptionNamesAscii(dbs[i].details.properties) && Ends(query(dbs[i].id))
  }

  /** Against a well-behaved Notion API, the discovered databases are ready. */
  lemma DiscoveredReady(api: Api)
    requires WellBehaved(api)
    ensures Ready(Discover(api.search, api.retrieve), api.query)
  {
    var dbs := Discover(api.search, api.retrieve);
    forall i | 0 <= i < |dbs|
      ensures OptionNamesAscii(dbs[i].details.properties) && Ends(api.query(dbs[i].id))
    {
      assert dbs[i].details == api.retrieve(dbs[i].id);
    }
  }

  datatype RunResult = RunResult(outcome: Outcome, trace: seq<Event>, state: State)

  /** The events of a confirmed run when `count` schemas were created: the
      failure of the next one if there is one, otherwise every database's
      page count; the cleanup last. */
  function ConfirmedEvents(dbs: seq<DetailedDb>, count: nat, query: string -> seq<Response<Page>>): seq<Event>
    requires count <= |dbs|
    requires forall i :: 0 <= i < |dbs| ==> Ends(query(dbs[i].id))
  {
    if count < |dbs| then CreatedEvents(dbs, count) + [SchemaFailed(dbs[count].id), Cleanup]
    else CreatedEvents(dbs, count) + MigratedEvents(dbs, query) + [Cleanup]
  }

  /** What `run` does once the user has confirmed: create every schema,
      stopping at the first that raises, then migrate every database; the
      events from there on, ending with the cleanup. */
  function AfterConfirmation(s: State, dbs: seq<DetailedDb>, query: string -> seq<Response<Page>>, mapper: Mapper): RunResult
    requires ValidState(s) && TitlesAscii(dbs)
    requires forall i :: 0 <= i < |dbs| ==> Ends(query(dbs[i].id))
  {
    var c := CreateSchemas(s, dbs, mapper);
    var events := ConfirmedEvents(dbs, c.count, query);
    if c.count < |dbs| then RunResult(Failed(dbs[c.count].id), events, c.state)
    else
      CreateSchemasValid(s, dbs, mapper);
      RunResult(Completed, events, MigrateAll(c.state, dbs, query, mapper))
  }

  /** What `run` does from state `s` with the databases `dbs` it discovered:
      show the plan, ask, go on only when confirmed, and always clean up. */
  function RunSpec(s: State, dbs: seq<DetailedDb>, reply: Option<string>, query: string -> seq<Response<Page>>, mapper: Mapper): RunResult
    requires ValidState(s) && Ready(dbs, query)
  {
    if dbs == [] then RunResult(NothingToMigrate, [Discovered(0), Cleanup], s)
    else
      var shown := [Discovered(|dbs|), PlanShown(PlanRows(dbs)), Confirmation(Confirms(reply))];
      if !Confirms(reply) then RunResult(Cancelled, shown + [Cleanup], s)
      else
        var rest := AfterConfirmation(s, dbs, query, mapper);
        RunResult(rest.outcome, shown + rest.trace, rest.state)
  }

  /** `events` ends with the cleanup and holds no other. */
  predicate CleansUpLast(events: seq<Event>)
  {
    |events| >= 1 && events[|events| - 1] == Cleanup && Cleanup !in events[..|events| - 1]
  }

  lemma CleanupAppended(events: seq<Event>)
    requires Cleanup !in events
    ensures CleansUpLast(events + [Cleanup])
  {
    assert (events + [Cleanup])[..|events|] == events;
  }

  lemma CleanupPrefixed(shown: seq<Event>, rest: seq<Event>)
    requires Cleanup !in shown && CleansUpLast(rest)
    ensures CleansUpLast(shown + rest)
  {
    assert (shown + rest)[..|shown + rest| - 1] == shown + rest[..|rest| - 1];
  }

  /** After a confirmation, the events end with exactly one cleanup. */
  lemma ConfirmedEventsCleanUp(dbs: seq<DetailedDb>, count: nat, query: string -> seq<Response<Page>>)
    requires count <= |dbs|
    requires forall i :: 0 <= i < |dbs| ==> Ends(query(dbs[i].id))
    ensures CleansUpLast(ConfirmedEvents(dbs, count, query))
  {
    var created := CreatedEvents(dbs, count);
    assert Cleanup !in created;
    if count == |dbs| {
      var migrated := MigratedEvents(dbs, query);
      assert Cleanup !in migrated;
      CleanupAppended(created + migrated);
    } else {
      CleanupAppended(created + [SchemaFailed(dbs[count].id)]);
      assert created + [SchemaFailed(dbs[count].id)] + [Cleanup] == created + [SchemaFailed(dbs[count].id), Cleanup];
    }
  }

  /** Whatever happens, the run ends with exactly one cleanup, as its last event. */
  lemma RunCleansUp(s: State, dbs: seq<DetailedDb>, reply: Option<string>, query: string -> seq<Response<Page>>, mapper: Mapper)
    requires ValidState(s) && Ready(dbs, query)
    ensures CleansUpLast(RunSpec(s, dbs, reply, query, mapper).trace)
  {
    if dbs == [] {
      CleanupAppended([Discovered(0)]);
    } else {
      var shown := [Discovered(|dbs|), PlanShown(PlanRows(dbs)), Confirmation(Confirms(reply))];
      if !Confirms(reply) {
        CleanupAppended(shown);
      } else {
        ConfirmedEventsCleanUp(dbs, CreateSchemas(s, dbs, mapper).count, query);
        CleanupPrefixed(shown, AfterConfirmation(s, dbs, query, mapper).trace);
      }
    }
  }

  /** The run stops before touching the destination exactly when nothing was
      discovered or the user did not confirm. */
  lemma RunEarlyExits(s: State, dbs: seq<DetailedDb>, reply: Option<string>, query: string -> seq<Response<Page>>, mapper: Mapper)
    requires ValidState(s) && Ready(dbs, query)
    ensures var r := RunSpec(s, dbs, reply, query, mapper);
      (r.outcome == NothingToMigrate <==> dbs == [])
      && (r.outcome == Cancelled <==> dbs != [] && !Confirms(reply))
      && (r.outcome in {NothingToMigrate, Cancelled} ==> r.state == s)
  {
  }

  /** A run that fails has created the schemas of the databases before the
      one named, in order, and that one's schema raised; the failure is the
      event just before the cleanup. */
  lemma RunFailed(s: State, dbs: seq<DetailedDb>, reply: Option<string>, query: string -> seq<Response<Page>>, mapper: Mapper)
    requires ValidState(s) && Ready(dbs, query)
    requires RunSpec(s, dbs, reply, query, mapper).outcome.Failed?
    ensures var r := RunSpec(s, dbs, reply, query, mapper);
      var k := CreateSchemas(s, dbs, mapper).count;
      Confirms(reply) && k < |dbs| && r.outcome.databaseId == dbs[k].id
      && TitlesAscii(dbs[..k])
      && CreateSchemas(s, dbs[..k], mapper).count == k
      && SchemaStep(CreateSchemas(s, dbs[..k], mapper).state, dbs[k], mapper) == Step(r.state, false)
      && |r.trace| >= 2 && r.trace[|r.trace| - 2] == SchemaFailed(dbs[k].id)
  {
    CreateSchemasStops(s, dbs, mapper);
  }

  /** After a confirmation, the run completes exactly when every schema was
      created, and it then leaves a consistent state with a main table for
      every database. */
  lemma AfterConfirmationCompleted(s: State, dbs: seq<DetailedDb>, query: string -> seq<Response<Page>>, mapper: Mapper)
    requires ValidState(s) && TitlesAscii(dbs)
    requires forall i :: 0 <= i < |dbs| ==> Ends(query(dbs[i].id))
    ensures var r := AfterConfirmation(s, dbs, query, mapper);
      (r.outcome == Completed <==> CreateSchemas(s, dbs, mapper).count == |dbs|)
      && (r.outcome == Completed ==>
            ValidState(r.state) && forall i :: 0 <= i < |dbs| ==> dbs[i].id in r.state.createdTables)
  {
    var c := CreateSchemas(s, dbs, mapper);
    if c.count == |dbs| {
      CreateSchemasValid(s, dbs, mapper);
      MigrateFromKeeps(c.state, dbs, 0, query, mapper);
    }
  }

  /** When every schema was created, the events report each database's
      schema and then its page count, in order, then the cleanup. */
  lemma ConfirmedEventsReport(dbs: seq<DetailedDb>, query: string -> seq<Response<Page>>)
    requires forall i :: 0 <= i < |dbs| ==> Ends(query(dbs[i].id))
    ensures var t := ConfirmedEvents(dbs, |dbs|, query);
      |t| == 2 * |dbs| + 1
      && forall i :: 0 <= i < |dbs| ==>
           t[i] == SchemaCreated(dbs[i].id) && t[|dbs| + i] == DataMigrated(dbs[i].id, TotalResults(Consumed(query(dbs[i].id))))
  {
    var created := CreatedEvents(dbs, |dbs|);
    var migrated := MigratedEvents(dbs, query);
    var t := ConfirmedEvents(dbs, |dbs|, query);
    forall i | 0 <= i < |dbs|
      ensures t[i] == SchemaCreated(dbs[i].id) && t[|dbs| + i] == DataMigrated(dbs[i].id, TotalResults(Consumed(query(dbs[i].id))))
    {
      assert t[i] == created[i] && t[|dbs| + i] == migrated[i];
    }
  }

  /** A run completes exactly when something was discovered, the user
      confirmed and every schema was created; it then leaves a consistent
      state with a main table for every database. */
  lemma RunCompleted(s: State, dbs: seq<DetailedDb>, reply: Option<string>, query: string -> seq<Response<Page>>, mapper: Mapper)
    requires ValidState(s) && Ready(dbs, query)
    ensures var r := RunSpec(s, dbs, reply, query, mapper);
      (r.outcome == Completed <==> dbs != [] && Confirms(reply) && CreateSchemas(s, dbs, mapper).count == |dbs|)
      && (r.outcome == Completed ==>
            ValidState(r.state) && forall i :: 0 <= i < |dbs| ==> dbs[i].id in r.state.createdTables)
  {
    if dbs != [] && Confirms(reply) {
      AfterConfirmationCompleted(s, dbs, query, mapper);
    }
  }

  /** The `MetaData` outlives a run: once a run has completed, running again
      on the same migrator with the same databases and reply fails at the
      first schema, whose table name is already defined. */
  lemma RerunFails(s: State, dbs: seq<DetailedDb>, reply: Option<string>, query: string -> seq<Response<Page>>, mapper: Mapper)
    requires ValidState(s) && Ready(dbs, query)
    requires RunSpec(s, dbs, reply, query, mapper).outcome == Completed
    ensures var r := RunSpec(s, dbs, reply, query, mapper);
      ValidState(r.state) && RunSpec(r.state, dbs, reply, query, mapper).outcome == Failed(dbs[0].id)
  {
    RunCompleted(s, dbs, reply, query, mapper);
    CreateSchemasStep(s, dbs, mapper);
    SchemaStepKeepsDefined(s, dbs[0], mapper);
    CreateSchemasKeepsDefined(SchemaStep(s, dbs[0], mapper).state, dbs[1..], mapper);
    var c := CreateSchemas(s, dbs, mapper);
    CreateSchemasValid(s, dbs, mapper);
    MigrateFromKeeps(c.state, dbs, 0, query, mapper);
    var r := RunSpec(s, dbs, reply, query, mapper);
    assert r.state == MigrateFrom(c.state, dbs, 0, query, mapper);
    CreateSchemasStep(r.state, dbs, mapper);
  }

  /** Proof helper: a confirmed run is its confirmed part after the
      discovery, the plan and the confirmation. */
  lemma RunConfirmed(s: State, dbs: seq<DetailedDb>, reply: Option<string>, query: string -> seq<Response<Page>>, mapper: Mapper)
    requires ValidState(s) && Ready(dbs, query) && dbs != [] && Confirms(reply)
    ensures var r := RunSpec(s, dbs, reply, query, mapper);
      var rest := AfterConfirmation(s, dbs, query, mapper);
      r.outcome == rest.outcome && r.state == rest.state && |r.trace| == 3 + |rest.trace| && r.trace[3..] == rest.trace
  {
  }

  /** A completed run reports, after the discovery, the plan and the
      confirmation, each database's schema and then its page count, and
      ends with the cleanup. */
  lemma RunReport(s: State, dbs: seq<DetailedDb>, reply: Option<string>, query: string -> seq<Response<Page>>, mapper: Mapper)
    requires ValidState(s) && Ready(dbs, query)
    requires RunSpec(s, dbs, reply, query, mapper).outcome == Completed
    ensures var t := RunSpec(s, dbs, reply, query, mapper).trace;
      |t| == 2 * |dbs| + 4
      && forall i :: 0 <= i < |dbs| ==>
           t[3 + i] == SchemaCreated(dbs[i].id)
           && t[3 + |dbs| + i] == DataMigrated(dbs[i].id, TotalResults(Consumed(query(dbs[i].id))))
  {
    RunConfirmed(s, dbs, reply, query, mapper);
    AfterConfirmationCompleted(s, dbs, query, mapper);
    ConfirmedEventsReport(dbs, query);
    var rest := ConfirmedEvents(dbs, |dbs|, query);
    var t := RunSpec(s, dbs, reply, query, mapper).trace;
    assert t[3..] == rest;
    forall i | 0 <= i < |dbs|
      ensures t[3 + i] == SchemaCreated(dbs[i].id)
      ensures t[3 + |dbs| + i] == DataMigrated(dbs[i].id, TotalResults(Consumed(query(dbs[i].id))))
    {
      assert t[3 + i] == rest[i] && t[3 + |dbs| + i] == rest[|dbs| + i];
    }
  }

  class NotionMigrator {
    var metadata: map<string, TableDef>
    var createdTables: map<string, TableDef>
    var lookupTables: map<string, TableDef>
    /** The destination database: table name to the rows inserted into it, each
        the parameter map handed to the insert. */
    var store: map<string, seq<Row>>
    const mapper: Mapper

    function Snapshot(): State
      reads this
    {
      State(metadata, createdTables, lookupTables, store)
    }

    predicate Valid()
      reads this
    {
      ValidState(Snapshot())
    }

    /** A fresh migrator over a destination that may already hold tables. */
    constructor(mapper: Mapper, destination: map<string, seq<Row>>)
      ensures this.mapper == mapper && Snapshot() == State(map[], map[], map[], destination)
      ensures Valid()
    {
      this.mapper := mapper;
      metadata := map[];
      createdTables := map[];
      lookupTables := map[];
      store := destination;
    }

    /** The column loop of `_create_table_schema`: the primary key, then each
        column the mapper makes; and the properties that need an option table. */
    method CollectColumns(props: seq<Property>) returns (columns: seq<Column>, lookupConfigs: seq<Property>)
      ensures columns == [PrimaryKey] + MappedColumns(props, mapper)
      ensures lookupConfigs == LookupProps(props, mapper)
    {
      columns := [PrimaryKey];
      lookupConfigs := [];
      for i := 0 to |props|
        invariant columns == [PrimaryKey] + MappedColumns(props[..i], mapper)
        invariant lookupConfigs == LookupProps(props[..i], mapper)
      {
        assert props[..i + 1][..i] == props[..i];
        var p := props[i];
        var column := mapper.column(p.name, p.config);
        if column.Some? {
          columns := columns + [column.value];
        }
        if mapper.needsLookup(p.config) {
          lookupConfigs := lookupConfigs + [p];
        }
      }
      assert props[..|props|] == props;
    }

    /** The option-table loop of `_create_table_schema`: define and register
        one option table per lookup property; `ok` is false where defining
        one raises because its name is taken, keeping those defined before. */
    method DefineOptionTables(tableName: string, lookupConfigs: seq<Property>) returns (ok: bool)
      modifies this
      ensures Registration(metadata, lookupTables, ok) == RegisterLookups(old(metadata), old(lookupTables), tableName, lookupConfigs, mapper)
      ensures createdTables == old(createdTables) && store == old(store)
    {
      for j := 0 to |lookupConfigs|
        invariant RegisterLookups(metadata, lookupTables, tableName, lookupConfigs[j..], mapper)
                  == RegisterLookups(old(metadata), old(lookupTables), tableName, lookupConfigs, mapper)
        invariant createdTables == old(createdTables) && store == old(store)
      {
        var p := lookupConfigs[j];
        var optionTableName := mapper.lookupName(tableName, p.name);
        if optionTableName in metadata {
          return false;
        }
        var optionTable := OptionTable(optionTableName);
        metadata := metadata[optionTableName := optionTable];
        lookupTables := lookupTables[RegistryKey(tableName, p.name) := optionTable];
        assert lookupConfigs[j..][1..] == lookupConfigs[j + 1..];
      }
      return true;
    }

    method CreateTableSchema(info: DetailedDb) returns (ok: bool)
      requires Valid() && IsAscii(info.title)
      modifies this
      ensures Step(Snapshot(), ok) == SchemaStep(old(Snapshot()), info, mapper)
      ensures ok ==> Valid()
    {
      ghost var s0 := Snapshot();
      var tableName := CleanTableName(info.title);
      var columns, lookupConfigs := CollectColumns(info.details.properties);
      if tableName in metadata {
        // `Table(...)` raises: the name is already defined in this MetaData.
        return false;
      }
      var table := TableDef(tableName, columns, Description(info.details));
      metadata := metadata[tableName := table];
      ok := DefineOptionTables(tableName, lookupConfigs);
      if !ok {
        return;
      }
      createdTables := createdTables[info.id := table];
      store := CreateAll(metadata, store);
      SchemaStepValid(s0, info, mapper, Snapshot());
    }

    method InsertPagesBatch(table: TableDef, pages: seq<Page>, props: seq<Property>)
      requires table.name in store
      modifies this
      ensures store == old(store)[table.name := old(store)[table.name] + RowsOf(pages, props, mapper)]
      ensures metadata == old(metadata) && createdTables == old(createdTables) && lookupTables == old(lookupTables)
    {
      if pages == [] {
        assert RowsOf(pages, props, mapper) == [] && old(store)[table.name] + [] == old(store)[table.name];
        return;
      }
      var rows := BuildRows(pages, props, mapper);
      store := store[table.name := store[table.name] + rows];
    }

    method PopulateLookupTables(tableName: string, props: seq<Property>)
      requires RegistryInStore(lookupTables, store)
      modifies this
      ensures metadata == old(metadata) && createdTables == old(createdTables) && lookupTables == old(lookupTables)
      ensures store == PopulateAll(old(store), lookupTables, tableName, props)
    {
      for i := 0 to |props|
        invariant metadata == old(metadata) && createdTables == old(createdTables) && lookupTables == old(lookupTables)
        invariant store == PopulateAll(old(store), lookupTables, tableName, props[..i])
      {
        assert props[..i + 1][..i] == props[..i];
        var p := props[i];
        if !HasOptions(p.config.kind) {
          continue;
        }
        var lookupKey := RegistryKey(tableName, p.name);
        if lookupKey !in lookupTables {
          continue;
        }
        var optionTable := lookupTables[lookupKey];
        var options := p.config.options;
        if options != [] {
          store := store[optionTable.name := InsertIfAbsent(store[optionTable.name], options)];
        }
      }
      assert props[..|props|] == props;
    }

    /** The query loop of `_migrate_database_data`: one request per answer
        with the cursor of the previous one, each non-empty batch of results
        inserted into the main table. */
    method FetchPages(table: TableDef, info: DetailedDb, responses: seq<Response<Page>>)
      returns (requests: seq<Request>, totalPages: nat)
      requires table.name in store && Ends(responses)
      modifies this
      ensures store == old(store)[table.name := old(store)[table.name]
                                     + RowsOf(AllResults(Consumed(responses)), info.details.properties, mapper)]
      ensures metadata == old(metadata) && createdTables == old(createdTables) && lookupTables == old(lookupTables)
      ensures requests == QueryRequests(info.id, responses)
      ensures totalPages == TotalResults(Consumed(responses))
    {
      var props := info.details.properties;
      ghost var m0 := store;
      ghost var before := store[table.name];
      var cursor: Option<string> := None;
      var k := 0;
      totalPages := 0;
      requests := [];
      assert responses[..0] == [];
      assert before + RowsOf([], props, mapper) == before;
      while true
        invariant k <= FirstFinal(responses)
        invariant cursor == CursorBefore(responses, k)
        invariant requests == QueriesBefore(info.id, responses, k)
        invariant totalPages == TotalResults(responses[..k])
        invariant store == m0[table.name := before + RowsOf(AllResults(responses[..k]), props, mapper)]
        invariant metadata == old(metadata) && createdTables == old(createdTables) && lookupTables == old(lookupTables)
        decreases FirstFinal(responses) - k
      {
        var response := responses[k];
        requests := requests + [Query(info.id, cursor, PageSize)];
        QueriesBeforeStep(info.id, responses, k);
        var pages := response.results;
        AllResultsStep(responses, k);
        ghost var done := AllResults(responses[..k]);
        AppendBatch(m0, table.name, before, done, pages, props, mapper);
        if pages != [] {
          InsertPagesBatch(table, pages, props);
          totalPages := totalPages + |pages|;
        } else {
          assert done + pages == done;
        }
        assert store == m0[table.name := before + RowsOf(done + pages, props, mapper)];
        if !response.hasMore {
          break;
        }
        cursor := response.nextCursor;
        k := k + 1;
      }
      assert responses[..k + 1] == Consumed(responses);
    }

    /** `_migrate_database_data`: fetch and insert every page of the
        database, then fill its option tables. */
    method MigrateDatabaseData(info: DetailedDb, responses: seq<Response<Page>>) returns (requests: seq<Request>, totalPages: nat)
      requires Valid() && info.id in createdTables && Ends(responses)
      modifies this
      ensures Snapshot() == MigrateStep(old(Snapshot()), info, responses, mapper)
      ensures Valid()
      ensures requests == QueryRequests(info.id, responses)
      ensures totalPages == TotalResults(Consumed(responses))
    {
      ghost var s0 := Snapshot();
      var table := createdTables[info.id];
      requests, totalPages := FetchPages(table, info, responses);
      MigrateStepIs(s0, info, responses, mapper, store);
      PopulateLookupTables(table.name, info.details.properties);
    }

    /** `run`: discover, show the plan, ask, create every schema, then migrate every database. */
    method Run(api: Api, reply: Option<string>) returns (outcome: Outcome, trace: seq<Event>)
      requires Valid() && WellBehaved(api)
      modifies this
      ensures RunResult(outcome, trace, Snapshot())
           == RunSpec(old(Snapshot()), Discover(api.search, api.retrieve), reply, api.query, mapper)
    {
      ghost var s0 := Snapshot();
      var dbs, discoveryRequests, requestCount := GetDatabases(api.search, api.retrieve);
      DiscoveredReady(api);
      if dbs == [] {
        outcome, trace := NothingToMigrate, [Discovered(0), Cleanup];
        return;
      }
      var plan := PlanRows(dbs);
      var confirmed := Confirms(reply);
      var shown := [Discovered(|dbs|), PlanShown(plan), Confirmation(confirmed)];
      if !confirmed {
        outcome, trace := Cancelled, shown + [Cleanup];
        return;
      }
      var rest;
      outcome, rest := MigrateConfirmed(dbs, api.query);
      trace := shown + rest;
    }

    /** The part of `run` after a confirmation: the schema loop, and the data
        loop when every schema was created. */
    method MigrateConfirmed(dbs: seq<DetailedDb>, query: string -> seq<Response<Page>>) returns (outcome: Outcome, events: seq<Event>)
      requires Valid() && TitlesAscii(dbs)
      requires forall i :: 0 <= i < |dbs| ==> Ends(query(dbs[i].id))
      modifies this
      ensures RunResult(outcome, events, Snapshot()) == AfterConfirmation(old(Snapshot()), dbs, query, mapper)
    {
      var count := CreateSchemaPhase(dbs);
      var created := CreatedEvents(dbs, count);
      if count < |dbs| {
        outcome, events := Failed(dbs[count].id), created + [SchemaFailed(dbs[count].id), Cleanup];
        return;
      }
      var pages := MigrateDataPhase(dbs, query);
      var migrated := seq(|dbs|, i requires 0 <= i < |dbs| => DataMigrated(dbs[i].id, pages[i]));
      assert migrated == MigratedEvents(dbs, query);
      outcome, events := Completed, created + migrated + [Cleanup];
    }

    /** The schema loop of `run`: stops at the first database whose schema
        cannot be defined; `count` databases succeeded before it. */
    method CreateSchemaPhase(dbs: seq<DetailedDb>) returns (count: nat)
      requires Valid() && TitlesAscii(dbs)
      modifies this
      ensures Created(Snapshot(), count) == CreateSchemas(old(Snapshot()), dbs, mapper)
      ensures count == |dbs| ==> Valid() && forall i :: 0 <= i < |dbs| ==> dbs[i].id in createdTables
    {
      ghost var s0 := Snapshot();
      ghost var c := CreateSchemas(s0, dbs, mapper);
      for i := 0 to |dbs|
        invariant Valid() && TitlesAscii(dbs[i..])
        invariant CreateSchemas(Snapshot(), dbs[i..], mapper).state == c.state
        invariant c.count == i + CreateSchemas(Snapshot(), dbs[i..], mapper).count
      {
        CreateSchemasStep(Snapshot(), dbs[i..], mapper);
        assert dbs[i..][0] == dbs[i] && dbs[i..][1..] == dbs[i + 1..];
        var ok := CreateTableSchema(dbs[i]);
        if !ok {
          return i;
        }
      }
      count := |dbs|;
      CreateSchemasValid(s0, dbs, mapper);
    }

    /** The data loop of `run`: `pages[i]` is the page count of database `i`. */
    method MigrateDataPhase(dbs: seq<DetailedDb>, query: string -> seq<Response<Page>>) returns (pages: seq<nat>)
      requires Valid() && Migratable(createdTables, dbs, query)
      modifies this
      ensures Snapshot() == MigrateAll(old(Snapshot()), dbs, query, mapper) && Valid()
      ensures pages == PageCounts(dbs, query)
    {
      ghost var s0 := Snapshot();
      pages := [];
      for i := 0 to |dbs|
        invariant Valid() && createdTables == s0.createdTables
        invariant MigrateFrom(Snapshot(), dbs, i, query, mapper) == MigrateAll(s0, dbs, query, mapper)
        invariant pages == PageCounts(dbs, query)[..i]
      {
        PageCountsPrefix(dbs, query, i);
        var queryRequests, totalPages := MigrateDatabaseData(dbs[i], query(dbs[i].id));
        pages := pages + [totalPages];
      }
      PageCountsPrefix(dbs, query, |dbs|);
    }
  }
}
