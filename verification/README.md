# Notion-to-PostgreSQL migrator, modelled in Dafny

This project models `NotionMigrator` (`migrator.py`). The class copies the databases of a Notion workspace into PostgreSQL. A run has these phases:

1. It pages through the Notion search and keeps the databases whose title is on a fixed allow-list, then fetches each one's property schema.
2. It shows a migration plan and asks for confirmation.
3. For each database it defines a main table, keyed by `notion_id`, plus one `{id, value, color}` option table per select-like property, and creates them.
4. It pages through every database's rows, inserts them in batches, and fills the option tables with `ON CONFLICT (id) DO NOTHING`.
5. It always ends with a cleanup.

The model follows the source file by file and function by function.

- **Pure helpers become functions with lemmas about them:**
  - the table-name sanitiser (`Naming`);
  - title extraction (`Titles`);
  - the counts of the plan (`Plan`);
  - the confirmation predicate (`Confirm`);
  - the row assembly (`Transfer`).
- **Stateful code becomes the class `Migration.NotionMigrator`:**
  - Its fields are `metadata` (the SQLAlchemy `MetaData` registry), `createdTables`, `lookupTables` and `store` (the destination database: table name to the rows inserted into it, each the parameter map handed to the insert).
  - Its methods keep the source's `while True` cursor loops and `for` loops, with their invariants.
  - Each method is proved equal to a function on the state in `Phases` or `Migration`: `SchemaStep`, `MigrateStep`, `CreateSchemas`, `MigrateAll`, `AfterConfirmation`, `RunSpec`.
  - What a run promises is proved as lemmas about those functions.
- **External inputs are values:**
  - The Notion API is an `Api` value: the list of search answers, a `retrieve` function, and one list of query answers per database.
  - The reply to the prompt is a parameter (`None` stands for `EOFError`/`KeyboardInterrupt`).
  - The property mapper (`NotionPropertyMapper`) is a record of four uninterpreted functions.
- **Output and errors:**
  - A run returns its `Outcome` and the trace of its phases.
  - SQLAlchemy refuses a second `Table` of the same name in one `MetaData`. That is the one exception the model raises: it ends the schema phase and the run, after the cleanup.

Modules: `Text` (character classes, ASCII lower-casing, trimming), `Notion` (API and table values), `Paging` (cursor scripts), `Titles`, `Naming`, `Schema`, `Plan`, `Transfer`, `Discovery`, `Confirm`, `Phases`, `Migration`.

### Behaviour of the code worth knowing
- **Sanitising is not idempotent on `table_`.** The empty title gives `table_`, and `table_` gives `table` (`Naming.TablePrefixNotFixed`). On every other result, sanitising twice equals sanitising once (`Naming.CleanTableNameIdempotent`).
- **Option tables are previewed and registered under different names.** The plan previews them as `table__field`. They are registered as `table_field`, with the raw property name (`Plan.PreviewDiffersFromRegistryKey`).
- **Plan and schema count option tables differently.** The plan counts select and multi_select properties. The schema step asks the mapper's `needs_lookup_table`. The two counts agree under a mapper that asks for an option table exactly for those two types (`Plan.PlanCountsOptionTables`).
- **There is no check that the destination is empty.** `create_all` skips tables that already exist and keeps their rows (`Schema.CreateAllSpec`). The only failure the model has is a name defined twice in the migrator's `MetaData` (`Phases.SameTableNameFails`). That includes a name defined by an earlier `run()` on the same object: the `MetaData` is created once, in the constructor, so a second run with the same databases fails at its first schema (`Migration.RerunFails`).
- **Some steps are absent from the code.** It does no relation validation, skipped-property reporting or page-content extraction.

## Model

| member | source | states |
|---|---|---|
| Paging.FirstFinal | migrator.py:311-326 | the loop stops at the first answer without `has_more`; every answer before it has `has_more` |
| Paging.ConsumedShape | migrator.py:95-110 | the answers consumed form a non-empty prefix of the script, ending at the first answer without `has_more` |
| Paging.AllResultsAppend | migrator.py:105 | accumulating `results` distributes over splitting the answers |
| Paging.AllResultsLength | migrator.py:319-322 | the number of accumulated results is the sum of the page lengths |
| Titles.JoinPlainTextAppend | migrator.py:158 | joining the fragments distributes over splitting them |
| Titles.JoinPlainTextAt | migrator.py:158 | each fragment's plain text appears in the joined title, in order, right after the texts before it |
| Titles.TitleFromFragments | migrator.py:156-158 | a non-empty title list yields exactly the concatenation of its fragments' plain texts (missing ones count as empty) |
| Titles.UntitledFallback | migrator.py:156-159 | an empty or missing title list yields `Untitled_` followed by the first (up to) eight characters of the id |
| Naming.ReplaceNonWordShape | migrator.py:399 | replacing non-word characters leaves only word characters, and only underscores exactly when the input has no letter or digit |
| Naming.CollapseShape | migrator.py:401 | collapsing leaves no `__`, keeps the first character, and leaves a string of word characters one |
| Naming.CollapseKeepsOthers | migrator.py:401 | collapsing removes only underscores: every other character stays, in order |
| Naming.CollapseSnoc | migrator.py:401 | one more character is appended to the collapsed string unless it continues a run of underscores, so each run becomes exactly one `_` |
| Naming.CollapseKeeps | migrator.py:401 | a string without `__` is left unchanged |
| Naming.TrimUnderscoresShape | migrator.py:403 | stripping `_` leaves no `_` at either end, and leaves nothing exactly when the input was all underscores |
| Naming.ReplaceNonWordKeepsAlnums | migrator.py:399 | apart from underscores, the replaced string is exactly the input's ASCII letters and digits, in order |
| Naming.TrimUnderscoresKeepsOthers | migrator.py:403 | stripping `_` from both ends removes only underscores |
| Naming.StrippedKeepsAlnums | migrator.py:399-403 | apart from underscores, the first three steps leave exactly the input's ASCII letters and digits, in order |
| Naming.StrippedIsJoined | migrator.py:397-403 | the first three steps equal the reference `Joined`: letters and digits kept in order, each run of other characters between two of them one `_`, runs at either end dropped |
| Naming.StrippedSeparator | migrator.py:397-403 | a separator with letters or digits on both sides leaves exactly one `_` between what the two sides strip to |
| Naming.StrippedSingleWord | migrator.py:397-403 | a name whose letters and digits form one unbroken run strips to exactly that run, with no `_` |
| Naming.TwoWords | migrator.py:397-403 | two runs of letters and digits separated by a space strip to the two runs joined by `_` |
| Naming.StrippedShape | migrator.py:399-403 | after the first three steps: word characters only, no `__`, no `_` at either end, empty exactly when the input has no letter or digit |
| Naming.PrefixedShape | migrator.py:404-406 | after the `table_` step the name is non-empty, not led by `_` or a digit, and ends in `_` exactly when it is `table_` |
| Naming.BoundedShape | migrator.py:407-409 | the 50-character cut keeps all of the above and bounds the length by 50 |
| Naming.LowerShape | migrator.py:410 | lower-casing gives identifier characters and moves no underscore or digit |
| Naming.CleanTableNameKeepsAlnums | migrator.py:395-410 | when no cut happens, the result spells, apart from underscores, the input's letters and digits lower-cased and in order, behind `table` when there are none or the first is a digit |
| Naming.CleanTableNameCut | migrator.py:407-410 | when the cut happens the result keeps 49 or 50 characters, and spells a prefix of what the uncut name would |
| Naming.CleanTableNameGrammar | migrator.py:395-410 | on ASCII input the result is 1 to 50 characters of `[a-z0-9_]`, has no `__`, is not led by `_` or a digit, and ends in `_` exactly when it is `table_` |
| Naming.CleanTableNameDegenerate | migrator.py:399-406 | the result is `table_` exactly when the input holds no ASCII letter or digit |
| Naming.CleanTableNameFixesCleanNames | migrator.py:395-410 | every name in that output grammar except `table_` is left unchanged |
| Naming.CleanTableNameIdempotent | migrator.py:395-410 | sanitising twice equals sanitising once, for every result other than `table_` |
| Naming.TablePrefixNotFixed | migrator.py:404-410 | the empty title gives `table_`, which sanitises to `table`, so idempotence fails there |
| Naming.TasksStripped | migrator.py:399-403 | the trailing space of `"Tasks "` becomes an underscore that is stripped |
| Naming.TrailingSpaceTitle | migrator.py:395-410 | `"Tasks "` sanitises to `tasks` |
| Naming.TwoWordsTitle | migrator.py:395-410 | a title of two words separated by a space, such as `"Cloud spaces"`, sanitises to the two words lower-cased and joined by one `_` |
| Schema.MainTableColumns | migrator.py:259-273 | the main table has the sanitised name, the `notion_id` primary key first, then the mapper's non-`None` columns in property order |
| Schema.MainTableComment | migrator.py:275-279 | the main table has a comment exactly when the description is present and non-empty, and the comment is then the fragments' plain texts joined |
| Schema.MappedColumnsBound | migrator.py:263-266 | there are no more mapped columns than properties |
| Schema.MappedColumnsMembers | migrator.py:263-266 | a column is present exactly when the mapper returns it for some property |
| Schema.MappedColumnsAppend | migrator.py:263-266 | column order follows property order |
| Schema.LookupPropsMembers | migrator.py:268-270 | a property is recorded for an option table exactly when `needs_lookup_table` holds for it |
| Schema.RegisterLookupsOk | migrator.py:282-291 | defining the option tables succeeds exactly when their names are new to the `MetaData` and pairwise distinct |
| Schema.RegisterLookupsKeeps | migrator.py:282-291 | defining option tables never drops a definition from the `MetaData`, whether or not it raises |
| Schema.RegisterLookupsDefines | migrator.py:282-290 | on success each lookup property's option table is defined under its own name, nothing else is added, and earlier definitions are kept |
| Schema.RegisterLookupsTables | migrator.py:291 | on success each option table is registered under `f"{table_name}_{prop_name}"`, and only those keys are added or replaced |
| Schema.CreateAllSpec | migrator.py:296 | `create_all` keeps every existing table's rows, creates each missing defined table empty, and a second call changes nothing |
| Plan.NamesOfKindMembers | migrator.py:181-184 | a name is listed for a type exactly when a property of that type has it |
| Plan.StoredPropertyCountSplit | migrator.py:177-178 | the property count plus the formula and rollup properties is the number of properties |
| Plan.OptionFieldsCount | migrator.py:181-186 | the option table count is the number of select and multi_select properties, and a name is an option field exactly when its property has options |
| Plan.PlanCountsOptionTables | migrator.py:186 | under a mapper that asks for option tables exactly for select and multi_select, the plan's count equals the number of option tables the schema step defines |
| Plan.PreviewDiffersFromRegistryKey | migrator.py:199 | the previewed name `table__field` differs from the registry key `table_field` unless the field name starts with `_` |
| Transfer.RowsOfAppend | migrator.py:342-356 | the rows of consecutive batches are the rows of all their pages, in order |
| Transfer.AppendBatch | migrator.py:319-322 | inserting one more batch extends the main table by that batch's rows |
| Transfer.BuildRows | migrator.py:341-356 | the row-building loops give one row per page, in page order, each the row specified for that page |
| Transfer.RowOfKeys | migrator.py:343-354 | a row's columns are exactly `notion_id` and the names of the non-formula, non-rollup properties |
| Transfer.RowOfValue | migrator.py:350-354 | each stored property's column holds the mapper's extraction of the page's payload, or of `{}` when the page lacks it |
| Transfer.RowOfNotionId | migrator.py:343 | `notion_id` holds the page id unless a stored property of that name overwrites it |
| Transfer.InsertIfAbsentAppends | migrator.py:379-392 | the upsert keeps every existing row in place and appends at most one `{id, value, color}` row per option, with colour `default` when missing |
| Transfer.InsertIfAbsentHasId | migrator.py:389-392 | after the upsert an id is present exactly when it was before or an option carries it |
| Transfer.InsertIfAbsentNoop | migrator.py:389-392 | when every option id is already present the upsert changes nothing |
| Transfer.InsertIfAbsentIdempotent | migrator.py:389-392 | repeating the upsert changes nothing |
| Transfer.InsertIfAbsentUniqueIds | migrator.py:389-391 | the upsert never creates a second row with an existing id |
| Transfer.PopulateOne | migrator.py:365-392 | populating one property creates and drops no table |
| Transfer.PopulateAll | migrator.py:365-393 | populating every property creates and drops no table |
| Transfer.PopulateOneDone | migrator.py:365-392 | after one iteration every option id of that property is in its option table |
| Transfer.PopulateOneNoop | migrator.py:365-378 | a property that is not select-like, unregistered, has no options, or whose options are all present changes nothing |
| Transfer.PopulateAllDone | migrator.py:365-393 | after the loop every registered select-like property's option ids are in its option table |
| Transfer.PopulateAllNoop | migrator.py:365-393 | when every property's options are present the loop changes nothing |
| Transfer.PopulateAllIdempotent | migrator.py:365-393 | populating a second time changes nothing |
| Transfer.PopulateAllOnlyAppends | migrator.py:365-393 | populating only appends rows, and only to registered option tables |
| Discovery.Discover | migrator.py:88-150 | each discovered database has an allowed, ASCII title and the details retrieved for its id |
| Discovery.SearchDatabases | migrator.py:95-110 | the search loop issues one request per answer up to the first without `has_more`, with `None` first and each `next_cursor` after, and gathers every answer's results in order |
| Discovery.FilterAllowed | migrator.py:115-120 | the filter keeps exactly the allowed search results, in search order |
| Discovery.RetrieveDetails | migrator.py:125-148 | one retrieve per kept database, in order, each giving an `{id, title, details}` record |
| Discovery.GetDatabases | migrator.py:88-150 | `_get_databases` returns the discovered databases; its requests are the searches followed by one retrieve per kept database, and its counter is their number |
| Discovery.KeptMembers | migrator.py:117-120 | a database is kept exactly when it was found and its title is allowed |
| Discovery.KeptAllowed | migrator.py:115-120 | every kept title is on the allow-list and is ASCII |
| Discovery.KeptAppend | migrator.py:117-120 | filtering keeps search order |
| Discovery.KeptBound | migrator.py:117-120 | no more databases are kept than were found |
| Discovery.AllowedAscii | migrator.py:115 | every allowed title is ASCII |
| Discovery.DiscoverSpec | migrator.py:88-150 | each discovered record is a found database under its own title, and there are no more records than search results |
| Discovery.UntitledNeverKept | migrator.py:115-120 | a database without a title (listed as `Untitled_…`) is never kept |
| Confirm.ConfirmAccepts | migrator.py:240-241 | `y` or `yes`, in any case and surrounded by any whitespace, is accepted |
| Confirm.ConfirmOnlyIf | migrator.py:240-241 | an accepted reply is whitespace, a word that lowers to `y` or `yes`, then whitespace |
| Confirm.BlankRefused | migrator.py:240-243 | a blank reply (the `N` default) is refused |
| Phases.MigrateStep | migrator.py:300-334 | migrating a database changes no definition or registry and creates and drops no table |
| Phases.CreateSchemas | migrator.py:71-72 | the schema loop never counts more databases than it is given |
| Phases.SchemaStepSpec | migrator.py:253-293 | a schema step succeeds exactly when the sanitised name and the option table names are new and distinct; on failure nothing is recorded as created and no table is created |
| Phases.SchemaStepSuccess | migrator.py:245-298 | on success the main table is recorded under the database id and exists, each option table is registered under its key and exists, and existing tables keep their rows |
| Phases.SchemaStepValid | migrator.py:245-298 | a successful step keeps the state consistent |
| Phases.SchemaStepDefinedExist | migrator.py:273-296 | after a successful step every defined table exists in the destination |
| Phases.SchemaStepRegistryDefined | migrator.py:282-291 | after a successful step every registry entry is the option table defined under its name |
| Phases.SchemaStepCreatedDefined | migrator.py:273-293 | after a successful step every created entry is a main table keyed by `notion_id` and defined under its name |
| Phases.SameTableNameFails | migrator.py:253-273 | two databases whose titles sanitise to the same name cannot both be created; the second one raises |
| Phases.SchemaStepKeepsDefined | migrator.py:245-291 | a schema step never drops a definition, and a successful one defines the database's table name |
| Phases.CreateSchemasKeepsDefined | migrator.py:71-72 | the schema loop never drops a definition from the `MetaData` |
| Phases.CreateSchemasValid | migrator.py:71-74 | when every schema is created the state is consistent and records a main table for each database |
| Phases.CreateSchemasStops | migrator.py:71-72 | when the loop stops early, the databases before the one that stopped it all succeeded, and that one's step raised |
| Phases.CreateSchemasKeepsCreated | migrator.py:71-72 | the schema loop never forgets a created table |
| Phases.MigrateFromKeeps | migrator.py:78-80 | the data phase keeps definitions and registries unchanged, creates and drops no table, and keeps the state consistent |
| Phases.MigrateStepRows | migrator.py:300-334 | migrating a database appends one row per fetched page, in order, to its main table; other non-option tables are untouched, and no table loses or changes a row |
| Phases.ThreeBatches | migrator.py:311-326 | answers of 100, 100 and 37 pages take three queries and yield 237 rows |
| Migration.DiscoveredReady | migrator.py:88-150 | against an API whose scripts end, the discovered databases have ASCII titles and ending query scripts |
| Migration.ConfirmedEventsCleanUp | migrator.py:85-86 | after a confirmation the events end with exactly one cleanup |
| Migration.RunCleansUp | migrator.py:49-86 | every run ends with exactly one cleanup, as its last event |
| Migration.RunEarlyExits | migrator.py:57-67 | a run returns early exactly when nothing was discovered or the reply is not a confirmation, and then leaves the state unchanged |
| Migration.RunFailed | migrator.py:69-74 | a failed run created the schemas of the databases before the one named, in order, and that one's step raised; the failure is the event just before the cleanup |
| Migration.AfterConfirmationCompleted | migrator.py:69-83 | after a confirmation, the run completes exactly when every schema was created, and then leaves a consistent state with a main table per database |
| Migration.ConfirmedEventsReport | migrator.py:69-86 | when every schema was created, the events report each schema, then each page count, in order, then the cleanup |
| Migration.RunCompleted | migrator.py:47-86 | a run completes exactly when something was discovered, the reply confirms and every schema was created; it then leaves a consistent state with a main table per database |
| Migration.RerunFails | migrator.py:40-86 | the `MetaData` is made once per migrator: after a completed run, a second run with the same databases and reply fails at the first database |
| Migration.RunReport | migrator.py:47-86 | a completed run reports every schema before any data, then every database's page count, in order, then the cleanup |
| Migration.NotionMigrator.constructor | migrator.py:26-45 | a new migrator starts with an empty `MetaData` and empty registries over the given destination |
| Migration.NotionMigrator.CollectColumns | migrator.py:255-270 | the column loop gives the primary key and then the mapped columns, and the properties that need option tables |
| Migration.NotionMigrator.DefineOptionTables | migrator.py:281-291 | the option-table loop defines and registers option tables as specified, stopping where a definition raises |
| Migration.NotionMigrator.CreateTableSchema | migrator.py:245-298 | `_create_table_schema` performs the schema step on the object's fields and keeps the state consistent when it succeeds |
| Migration.NotionMigrator.InsertPagesBatch | migrator.py:336-361 | appends one row per page, in order, to the given table, and changes nothing else |
| Migration.NotionMigrator.PopulateLookupTables | migrator.py:363-393 | `_populate_lookup_tables` upserts each registered select-like property's options into its option table |
| Migration.NotionMigrator.FetchPages | migrator.py:307-331 | the query loop issues one query per answer with the previous cursor and `page_size` 100, inserts every fetched page's row, and counts the pages |
| Migration.NotionMigrator.MigrateDatabaseData | migrator.py:300-334 | `_migrate_database_data` performs the data step for one database and keeps the state consistent |
| Migration.NotionMigrator.CreateSchemaPhase | migrator.py:70-74 | the schema loop creates schemas in order until one raises |
| Migration.NotionMigrator.MigrateDataPhase | migrator.py:77-81 | the data loop migrates every database in order and returns each one's page count |
| Migration.NotionMigrator.MigrateConfirmed | migrator.py:69-86 | after a confirmation: the schema loop, then the data loop when no schema raised, then the cleanup |
| Migration.NotionMigrator.Run | migrator.py:47-86 | `run` returns the outcome and trace of the specified run, and leaves its fields as that run leaves the state |

## Left out
- **Notion client and rate limiter:** the client calls and the `RateLimiter` are not modelled. The answers are given as an `Api` value, so errors raised by API calls are not modelled.
- **Progress and logging:** `ProgressTracker` output, logging, `set_postfix` and the `tabulate` rendering of the plan are left out. The plan's values are modelled (`Plan.PlanRows`); the request counter is modelled only as a returned number.
- **Prompt:** `input()` itself is not modelled; its reply is a parameter.
- **Mapper:** `schema_mapper.py` is not part of this model. `NotionPropertyMapper`'s four methods are uninterpreted functions, so the Python `type` strings and the mapper's own column and value choices are not modelled.
- **Inserted rows:** the store records each row as the parameter map handed to `conn.execute(table.insert(), rows)`. That map is keyed by raw property names. The engine binds only the keys that name a column of the table, so the model does not capture that a value under any other key is not stored. Such keys come from a property the mapper gives no column, or whose column it names differently.
- **Database engine:** the SQL engine is a map from table name to rows, in insertion order. This leaves out:
  - column types;
  - the primary-key conflict a second insert of the same page would raise;
  - the `value` column's `NOT NULL`;
  - connection and commit failures.
- **Other exceptions:** the only exception modelled is a table name defined twice in one `MetaData`, during the schema phase. Exceptions in the data phase would leave earlier batches committed; they are not modelled.
- **Unicode:** Python's `\w`, `isdigit` and `lower` are Unicode-aware. The model covers ASCII only.
  - Naming.CleanTableNameGrammar, Naming.CleanTableNameDegenerate, Naming.CleanTableNameIdempotent and `Phases.SchemaStep` require ASCII input. Titles are ASCII because of the allow-list; select and multi_select property names are assumed ASCII in `Migration.WellBehaved`.
  - Confirm.ConfirmAccepts: whitespace is Python's `isspace` set. Lower-casing is ASCII-only, which decides `y`/`yes` exactly only for ASCII letters.
- **Migration.NotionMigrator.Run:** requires every paginated script to end with an answer whose `has_more` is false. On a script that never ends, the source loops forever.
- **Missing `type` key:** a property without a `type` key is not modelled. `PropType` has no "missing" case.
- **Null `color`:** a `color` key present with a `null` value stays `null` in the source. The model only has "missing", which becomes `default`.
