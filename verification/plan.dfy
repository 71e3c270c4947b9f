/** The counts `NotionMigrator._show_migration_plan` computes for each
    database before asking for confirmation; the rendering is not modelled. */
module Plan {
  import opened Notion
  import opened Text
  import opened Naming
  import opened Schema

  /** One line of the plan. */
  datatype PlanRow = PlanRow(database: string, tableName: string, properties: nat, relations: nat,
                             optionTables: nat, optionTableNames: seq<string>)

  /** The number of properties whose type is neither formula nor rollup. */
  function StoredPropertyCount(props: seq<Property>): nat
  {
    if props == [] then 0
    else StoredPropertyCount(props[..|props| - 1]) + (if IsComputed(props[|props| - 1].config.kind) then 0 else 1)
  }

  /** `[name for name, prop in properties.items() if prop.get("type") == kind]`. */
  function NamesOfKind(props: seq<Property>, kind: PropType): seq<string>
  {
    if props == [] then []
    else
      var p := props[|props| - 1];
      NamesOfKind(props[..|props| - 1], kind) + (if p.config.kind == kind then [p.name] else [])
  }

  /** Select field names followed by multi_select field names. */
  function OptionFields(props: seq<Property>): seq<string>
  {
    NamesOfKind(props, Select) + NamesOfKind(props, MultiSelect)
  }

  /** Select and multi_select property names are ASCII, so the sanitiser's model applies to them. */
  predicate OptionNamesAscii(props: seq<Property>)
  {
    forall i :: 0 <= i < |props| && HasOptions(props[i].config.kind) ==> IsAscii(props[i].name)
  }

  /** The previewed option table names, `f"{table_name}__{clean_field_name}"`. */
  function OptionTablePreview(tableName: string, fields: seq<string>): seq<string>
    requires forall i :: 0 <= i < |fields| ==> IsAscii(fields[i])
  {
    seq(|fields|, i requires 0 <= i < |fields| => tableName + "__" + CleanTableName(fields[i]))
  }

  function PlanRowOf(db: DetailedDb): PlanRow
    requires IsAscii(db.title) && OptionNamesAscii(db.details.properties)
  {
    var props := db.details.properties;
    var fields := OptionFields(props);
    OptionFieldsAscii(props);
    var tableName := CleanTableName(db.title);
    PlanRow(db.title, tableName, StoredPropertyCount(props), |NamesOfKind(props, Relation)|,
            |fields|, OptionTablePreview(tableName, fields))
  }

  function PlanRows(dbs: seq<DetailedDb>): seq<PlanRow>
    requires forall i :: 0 <= i < |dbs| ==> IsAscii(dbs[i].title) && OptionNamesAscii(dbs[i].details.properties)
  {
    seq(|dbs|, i requires 0 <= i < |dbs| => PlanRowOf(dbs[i]))
  }

  /** A name is listed for a type exactly when some property of that type has it. */
  lemma {:induction false} NamesOfKindMembers(props: seq<Property>, kind: PropType, n: string)
    ensures n in NamesOfKind(props, kind) <==> exists i :: 0 <= i < |props| && props[i].name == n && props[i].config.kind == kind
  {
    if props != [] {
      var init := props[..|props| - 1];
      NamesOfKindMembers(init, kind, n);
      if exists i :: 0 <= i < |init| && init[i].name == n && init[i].config.kind == kind {
        var i :| 0 <= i < |init| && init[i].name == n && init[i].config.kind == kind;
        assert props[i] == init[i];
      }
      if exists i :: 0 <= i < |props| && props[i].name == n && props[i].config.kind == kind {
        var i :| 0 <= i < |props| && props[i].name == n && props[i].config.kind == kind;
        if i < |init| { assert init[i] == props[i]; }
      }
    }
  }

  /** Every option field name is ASCII when the select and multi_select property names are. */
  lemma OptionFieldsAscii(props: seq<Property>)
    requires OptionNamesAscii(props)
    ensures forall i :: 0 <= i < |OptionFields(props)| ==> IsAscii(OptionFields(props)[i])
  {
    var fields := OptionFields(props);
    forall i | 0 <= i < |fields| ensures IsAscii(fields[i]) {
      var sel := NamesOfKind(props, Select);
      if i < |sel| {
        assert fields[i] in sel;
        NamesOfKindMembers(props, Select, fields[i]);
      } else {
        assert fields[i] in NamesOfKind(props, MultiSelect);
        NamesOfKindMembers(props, MultiSelect, fields[i]);
      }
    }
  }

  /** The property count and the formula and rollup properties together make up every property. */
  lemma {:induction false} StoredPropertyCountSplit(props: seq<Property>)
    ensures StoredPropertyCount(props) + |NamesOfKind(props, Formula)| + |NamesOfKind(props, Rollup)| == |props|
  {
    if props != [] {
      StoredPropertyCountSplit(props[..|props| - 1]);
    }
  }

  /** The option table count is the number of select and multi_select
      properties, and a name is an option field exactly when its property has options. */
  lemma {:induction false} OptionFieldsCount(props: seq<Property>, n: string)
    ensures |OptionFields(props)| == |NamesOfKind(props, Select)| + |NamesOfKind(props, MultiSelect)|
    ensures n in OptionFields(props) <==>
      exists i :: 0 <= i < |props| && props[i].name == n && HasOptions(props[i].config.kind)
  {
    NamesOfKindMembers(props, Select, n);
    NamesOfKindMembers(props, MultiSelect, n);
  }

  /** Under a mapper that asks for an option table exactly for select and
      multi_select properties, the plan announces as many option tables as the
      schema step defines. */
  lemma {:induction false} PlanCountsOptionTables(props: seq<Property>, mapper: Mapper)
    requires forall c: PropConfig :: mapper.needsLookup(c) <==> HasOptions(c.kind)
    ensures |LookupProps(props, mapper)| == |NamesOfKind(props, Select)| + |NamesOfKind(props, MultiSelect)|
  {
    if props != [] {
      PlanCountsOptionTables(props[..|props| - 1], mapper);
    }
  }

  /** The previewed name `table__field` and the registry key `table_field`
      differ, unless the raw property name itself starts with `_`. */
  lemma PreviewDiffersFromRegistryKey(tableName: string, field: string)
    requires IsAscii(field)
    ensures tableName + "__" + CleanTableName(field) == RegistryKey(tableName, field) ==> |field| > 0 && field[0] == '_'
  {
    CleanTableNameGrammar(field);
    var preview := tableName + "__" + CleanTableName(field);
    var key := RegistryKey(tableName, field);
    if preview == key {
      assert |field| == 1 + |CleanTableName(field)| > 0;
      assert key[|tableName| + 1] == field[0];
      assert preview[|tableName| + 1] == '_';
    }
  }
}
