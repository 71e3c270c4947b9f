/** What `NotionMigrator._create_table_schema` builds: the main table's
    columns, one option table per property the mapper says needs one, the
    SQLAlchemy `MetaData` registry they are defined in, and the tables
    `create_all` adds to the destination. */
module Schema {
  import opened Notion
  import opened Titles

  /** `Column("notion_id", String(36), primary_key=True)`. */
  const PrimaryKey: Column := Column("notion_id", Varchar(36), true, false)

  /** The non-`None` columns the mapper gives, in property order. */
  function MappedColumns(props: seq<Property>, mapper: Mapper): seq<Column>
  {
    if props == [] then []
    else
      var p := props[|props| - 1];
      var c := mapper.column(p.name, p.config);
      MappedColumns(props[..|props| - 1], mapper) + (if c.Some? then [c.value] else [])
  }

  /** The properties recorded in `lookup_table_configs`, in property order. */
  function LookupProps(props: seq<Property>, mapper: Mapper): seq<Property>
  {
    if props == [] then []
    else
      var p := props[|props| - 1];
      LookupProps(props[..|props| - 1], mapper) + (if mapper.needsLookup(p.config) then [p] else [])
  }

  /** The table comment: the description's plain text when the description is non-empty. */
  function Description(details: Details): Option<string>
  {
    if details.description.Some? && details.description.value != [] then Some(JoinPlainText(details.description.value))
    else None
  }

  function MainTable(name: string, details: Details, mapper: Mapper): TableDef
  {
    TableDef(name, [PrimaryKey] + MappedColumns(details.properties, mapper), Description(details))
  }

  /** An option table: `id` (primary key), `value` (not null), `color`. */
  function OptionTable(name: string): TableDef
  {
    TableDef(name, [Column("id", Varchar(36), true, false), Column("value", Varchar(255), false, false),
                    Column("color", Varchar(50), false, true)], None)
  }

  /** The key of `self.lookup_tables`: `f"{table_name}_{prop_name}"`, with the raw property name. */
  function RegistryKey(tableName: string, propName: string): string
  {
    tableName + "_" + propName
  }

  /** The option table names the mapper gives, one per lookup property. */
  function LookupNames(tableName: string, lps: seq<Property>, mapper: Mapper): seq<string>
  {
    seq(|lps|, i requires 0 <= i < |lps| => mapper.lookupName(tableName, lps[i].name))
  }

  /** The registry keys of the lookup properties. */
  function LookupKeys(tableName: string, lps: seq<Property>): seq<string>
  {
    seq(|lps|, i requires 0 <= i < |lps| => RegistryKey(tableName, lps[i].name))
  }

  /** No name is already defined, and no name occurs twice. */
  predicate FreshNames(defined: map<string, TableDef>, names: seq<string>)
  {
    (forall i :: 0 <= i < |names| ==> names[i] !in defined)
    && (forall i, j :: 0 <= i < j < |names| ==> names[i] != names[j])
  }

  datatype Registration = Registration(metadata: map<string, TableDef>, lookupTables: map<string, TableDef>, ok: bool)

  /** The option-table loop: each table is defined in `metadata` (SQLAlchemy
      refuses a second table of the same name in one `MetaData`, so the loop
      stops there) and then entered in `lookup_tables`. */
  function RegisterLookups(metadata: map<string, TableDef>, lookupTables: map<string, TableDef>,
                           tableName: string, lps: seq<Property>, mapper: Mapper): Registration
    decreases |lps|
  {
    if lps == [] then Registration(metadata, lookupTables, true)
    else
      var n := mapper.lookupName(tableName, lps[0].name);
      if n in metadata then Registration(metadata, lookupTables, false)
      else RegisterLookups(metadata[n := OptionTable(n)], lookupTables[RegistryKey(tableName, lps[0].name) := OptionTable(n)],
                           tableName, lps[1..], mapper)
  }

  /** `metadata.create_all(engine)`: every defined table the destination lacks is created empty; existing ones are kept. */
  function CreateAll(metadata: map<string, TableDef>, store: map<string, seq<Row>>): map<string, seq<Row>>
  {
    map n | n in metadata.Keys + store.Keys :: if n in store then store[n] else []
  }

  /** The main table starts with the `notion_id` primary key, followed by the
      mapper's non-`None` columns; properties the mapper declines add none. */
  lemma {:induction false} MainTableColumns(name: string, details: Details, mapper: Mapper)
    ensures var t := MainTable(name, details, mapper);
      t.name == name && t.columns[0] == PrimaryKey && t.columns[0].name == "notion_id" && t.columns[0].primaryKey
      && t.columns[1..] == MappedColumns(details.properties, mapper)
      && |t.columns| <= 1 + |details.properties|
  {
    MappedColumnsBound(details.properties, mapper);
  }

  /** The main table carries a comment exactly when the description is present
      and non-empty, and the comment is then the description's plain text. */
  lemma MainTableComment(name: string, details: Details, mapper: Mapper)
    ensures var t := MainTable(name, details, mapper); var d := details.description;
      (t.comment.Some? <==> d.Some? && d.value != [])
      && (t.comment.Some? ==> t.comment.value == JoinPlainText(d.value))
  {
  }

  lemma {:induction false} MappedColumnsBound(props: seq<Property>, mapper: Mapper)
    ensures |MappedColumns(props, mapper)| <= |props|
  {
    if props != [] {
      MappedColumnsBound(props[..|props| - 1], mapper);
    }
  }

  /** Column `c` is in the main table after the key exactly when the mapper gives it for some property. */
  lemma {:induction false} MappedColumnsMembers(props: seq<Property>, mapper: Mapper, c: Column)
    ensures c in MappedColumns(props, mapper) <==>
      exists i :: 0 <= i < |props| && mapper.column(props[i].name, props[i].config) == Some(c)
  {
    if props != [] {
      var init := props[..|props| - 1];
      MappedColumnsMembers(init, mapper, c);
      if exists i :: 0 <= i < |init| && mapper.column(init[i].name, init[i].config) == Some(c) {
        var i :| 0 <= i < |init| && mapper.column(init[i].name, init[i].config) == Some(c);
        assert props[i] == init[i];
      }
      if exists i :: 0 <= i < |props| && mapper.column(props[i].name, props[i].config) == Some(c) {
        var i :| 0 <= i < |props| && mapper.column(props[i].name, props[i].config) == Some(c);
        if i < |init| { assert init[i] == props[i]; }
      }
    }
  }

  /** Column order follows property order: the columns of two property runs are those of each, one after the other. */
  lemma {:induction false} MappedColumnsAppend(a: seq<Property>, b: seq<Property>, mapper: Mapper)
    ensures MappedColumns(a + b, mapper) == MappedColumns(a, mapper) + MappedColumns(b, mapper)
    decreases |b|
  {
    if b == [] {
      assert a + b == a;
    } else {
      assert (a + b)[..|a + b| - 1] == a + b[..|b| - 1];
      MappedColumnsAppend(a, b[..|b| - 1], mapper);
    }
  }

  /** A property gets an option table exactly when the mapper says it needs one. */
  lemma {:induction false} LookupPropsMembers(props: seq<Property>, mapper: Mapper, p: Property)
    ensures p in LookupProps(props, mapper) <==> p in props && mapper.needsLookup(p.config)
  {
    if props != [] {
      var init := props[..|props| - 1];
      LookupPropsMembers(init, mapper, p);
      assert props == init + [props[|props| - 1]];
    }
  }

  /** The registration succeeds exactly when the option table names are new to the metadata and pairwise distinct. */
  lemma {:induction false} RegisterLookupsOk(metadata: map<string, TableDef>, lookupTables: map<string, TableDef>,
                                             tableName: string, lps: seq<Property>, mapper: Mapper)
    ensures RegisterLookups(metadata, lookupTables, tableName, lps, mapper).ok
            <==> FreshNames(metadata, LookupNames(tableName, lps, mapper))
    decreases |lps|
  {
    var names := LookupNames(tableName, lps, mapper);
    if lps != [] {
      var n := names[0];
      var rest := LookupNames(tableName, lps[1..], mapper);
      assert rest == names[1..];
      var m' := metadata[n := OptionTable(n)];
      RegisterLookupsOk(m', lookupTables[RegistryKey(tableName, lps[0].name) := OptionTable(n)], tableName, lps[1..], mapper);
      if n !in metadata {
        assert FreshNames(metadata, names) <==> FreshNames(m', rest) by {
          if FreshNames(m', rest) {
            forall i, j | 0 <= i < j < |names| ensures names[i] != names[j] {
              if i == 0 { assert names[j] == rest[j - 1]; } else { assert names[i] == rest[i - 1] && names[j] == rest[j - 1]; }
            }
            forall i | 0 <= i < |names| ensures names[i] !in metadata {
              if i > 0 { assert names[i] == rest[i - 1]; }
            }
          }
          if FreshNames(metadata, names) {
            forall i | 0 <= i < |rest| ensures rest[i] !in m' {
              assert rest[i] == names[i + 1];
            }
          }
        }
      }
    }
  }

  /** On success, every lookup property's option table is defined under its
      own new name, and every earlier definition is kept. */
  /** Registering option tables never drops a definition, whether it succeeds or not. */
  lemma {:induction false} RegisterLookupsKeeps(metadata: map<string, TableDef>, lookupTables: map<string, TableDef>,
                                                tableName: string, lps: seq<Property>, mapper: Mapper)
    ensures metadata.Keys <= RegisterLookups(metadata, lookupTables, tableName, lps, mapper).metadata.Keys
    decreases |lps|
  {
    if lps != [] {
      var n := mapper.lookupName(tableName, lps[0].name);
      if n !in metadata {
        RegisterLookupsKeeps(metadata[n := OptionTable(n)], lookupTables[RegistryKey(tableName, lps[0].name) := OptionTable(n)],
                             tableName, lps[1..], mapper);
      }
    }
  }

  lemma {:induction false} RegisterLookupsDefines(metadata: map<string, TableDef>, lookupTables: map<string, TableDef>,
                                                  tableName: string, lps: seq<Property>, mapper: Mapper)
    requires RegisterLookups(metadata, lookupTables, tableName, lps, mapper).ok
    ensures var r := RegisterLookups(metadata, lookupTables, tableName, lps, mapper);
      var names := LookupNames(tableName, lps, mapper);
      (forall n :: n in r.metadata <==> n in metadata || n in names)
      && (forall n :: n in metadata ==> r.metadata[n] == metadata[n])
      && (forall i :: 0 <= i < |lps| ==> r.metadata[names[i]] == OptionTable(names[i]))
    decreases |lps|
  {
    if lps != [] {
      var names := LookupNames(tableName, lps, mapper);
      var n := names[0];
      var m' := metadata[n := OptionTable(n)];
      var l' := lookupTables[RegistryKey(tableName, lps[0].name) := OptionTable(n)];
      var rest := LookupNames(tableName, lps[1..], mapper);
      assert rest == names[1..];
      RegisterLookupsDefines(m', l', tableName, lps[1..], mapper);
      assert forall x :: x in names <==> x == n || x in rest;
    }
  }

  /** On success, every lookup property's option table is registered under
      its own registry key; nothing else is added or replaced, apart from
      registry keys that an earlier database had already used. */
  lemma {:induction false} RegisterLookupsTables(metadata: map<string, TableDef>, lookupTables: map<string, TableDef>,
                                                 tableName: string, lps: seq<Property>, mapper: Mapper)
    requires RegisterLookups(metadata, lookupTables, tableName, lps, mapper).ok
    ensures var r := RegisterLookups(metadata, lookupTables, tableName, lps, mapper);
      var names := LookupNames(tableName, lps, mapper);
      var keys := LookupKeys(tableName, lps);
      (forall i :: 0 <= i < |lps| ==> keys[i] in r.lookupTables && r.lookupTables[keys[i]] == OptionTable(names[i]))
      && (forall k :: k in r.lookupTables <==> k in lookupTables || k in keys)
      && (forall k :: k in lookupTables && k !in keys ==> r.lookupTables[k] == lookupTables[k])
    decreases |lps|
  {
    if lps != [] {
      var names := LookupNames(tableName, lps, mapper);
      var keys := LookupKeys(tableName, lps);
      var n := names[0];
      var k0 := keys[0];
      var m' := metadata[n := OptionTable(n)];
      var l' := lookupTables[k0 := OptionTable(n)];
      var rest := LookupNames(tableName, lps[1..], mapper);
      var restKeys := LookupKeys(tableName, lps[1..]);
      assert rest == names[1..] && restKeys == keys[1..];
      RegisterLookupsTables(m', l', tableName, lps[1..], mapper);
      RegisterLookupsOk(m', l', tableName, lps[1..], mapper);
      // The first key is not reused later, since its option table's name is fresh in the rest.
      assert k0 !in restKeys by {
        forall i | 0 <= i < |restKeys| ensures restKeys[i] != k0 {
          assert rest[i] != n;
          assert lps[i + 1].name != lps[0].name;
          assert restKeys[i][|tableName| + 1..] == lps[i + 1].name;
          assert k0[|tableName| + 1..] == lps[0].name;
        }
      }
      assert forall k :: k in keys <==> k == k0 || k in restKeys;
    }
  }

  /** `create_all` keeps every existing table's rows, creates the defined tables that are missing
      with no rows, and running it again changes nothing. */
  lemma CreateAllSpec(metadata: map<string, TableDef>, store: map<string, seq<Row>>)
    ensures var s := CreateAll(metadata, store);
      (forall n :: n in s <==> n in metadata || n in store)
      && (forall n :: n in store ==> s[n] == store[n])
      && (forall n :: n in metadata && n !in store ==> s[n] == [])
      && CreateAll(metadata, s) == s
  {
  }
}
