/** What the data phase writes: the row `_insert_pages_batch` assembles for
    each page, and the option rows `_populate_lookup_tables` inserts with
    `ON CONFLICT (id) DO NOTHING`. The destination is a map from table name
    to the table's rows, in insertion order, each row the parameter map
    handed to the insert (keyed by raw property names, not narrowed to the
    table's columns). */
module Transfer {
  import opened Notion
  import opened Schema

  /** `page.get("properties", {}).get(name, {})`. */
  function PayloadOf(page: Page, name: string): Payload
  {
    if name in page.properties then page.properties[name] else Absent
  }

  /** The row for one page: `notion_id` first, then one entry per stored
      (neither formula nor rollup) property, in property order, each holding
      the mapper's extraction of the page's payload. */
  function RowOf(page: Page, props: seq<Property>, mapper: Mapper): Row
  {
    if props == [] then map["notion_id" := Text(page.id)]
    else
      var p := props[|props| - 1];
      var row := RowOf(page, props[..|props| - 1], mapper);
      if IsComputed(p.config.kind) then row
      else row[p.name := mapper.extract(PayloadOf(page, p.name), p.config.kind)]
  }

  /** The rows of a batch, one per page, in page order. */
  function RowsOf(pages: seq<Page>, props: seq<Property>, mapper: Mapper): seq<Row>
  {
    seq(|pages|, i requires 0 <= i < |pages| => RowOf(pages[i], props, mapper))
  }

  /** Rows of consecutive batches are the rows of all their pages. */
  lemma RowsOfAppend(a: seq<Page>, b: seq<Page>, props: seq<Property>, mapper: Mapper)
    ensures RowsOf(a + b, props, mapper) == RowsOf(a, props, mapper) + RowsOf(b, props, mapper)
  {
    var r := RowsOf(a + b, props, mapper);
    var q := RowsOf(a, props, mapper) + RowsOf(b, props, mapper);
    assert |r| == |q|;
    forall i | 0 <= i < |r| ensures r[i] == q[i] {
      if i < |a| { assert (a + b)[i] == a[i]; } else { assert (a + b)[i] == b[i - |a|]; }
    }
  }

  /** Inserting one more batch into a table that holds `before` and the rows
      of the pages so far leaves it holding `before` and the rows of all of them. */
  lemma AppendBatch(m: map<string, seq<Row>>, t: string, before: seq<Row>, done: seq<Page>, pages: seq<Page>,
                    props: seq<Property>, mapper: Mapper)
    ensures var m1 := m[t := before + RowsOf(done, props, mapper)];
      m1[t := m1[t] + RowsOf(pages, props, mapper)] == m[t := before + RowsOf(done + pages, props, mapper)]
  {
    RowsOfAppend(done, pages, props, mapper);
    assert before + RowsOf(done, props, mapper) + RowsOf(pages, props, mapper)
        == before + (RowsOf(done, props, mapper) + RowsOf(pages, props, mapper));
  }

  /** The row-building loops of `_insert_pages_batch`. */
  method BuildRows(pages: seq<Page>, props: seq<Property>, mapper: Mapper) returns (rows: seq<Row>)
    ensures rows == RowsOf(pages, props, mapper)
  {
    rows := [];
    for i := 0 to |pages|
      invariant |rows| == i
      invariant forall k :: 0 <= k < i ==> rows[k] == RowOf(pages[k], props, mapper)
    {
      var page := pages[i];
      var row: Row := map["notion_id" := Text(page.id)];
      for j := 0 to |props|
        invariant row == RowOf(page, props[..j], mapper)
      {
        assert props[..j + 1][..j] == props[..j];
        var p := props[j];
        if IsComputed(p.config.kind) {
          continue;
        }
        var data := PayloadOf(page, p.name);
        row := row[p.name := mapper.extract(data, p.config.kind)];
      }
      assert props[..|props|] == props;
      rows := rows + [row];
    }
  }

  /** A row has a column exactly when it is `notion_id` or the name of a stored property. */
  lemma {:induction false} RowOfKeys(page: Page, props: seq<Property>, mapper: Mapper, k: string)
    ensures k in RowOf(page, props, mapper) <==>
      k == "notion_id" || exists i :: 0 <= i < |props| && props[i].name == k && !IsComputed(props[i].config.kind)
  {
    if props != [] {
      var init := props[..|props| - 1];
      RowOfKeys(page, init, mapper, k);
      if exists i :: 0 <= i < |init| && init[i].name == k && !IsComputed(init[i].config.kind) {
        var i :| 0 <= i < |init| && init[i].name == k && !IsComputed(init[i].config.kind);
        assert props[i] == init[i];
      }
      if exists i :: 0 <= i < |props| && props[i].name == k && !IsComputed(props[i].config.kind) {
        var i :| 0 <= i < |props| && props[i].name == k && !IsComputed(props[i].config.kind);
        if i < |init| { assert init[i] == props[i]; }
      }
    }
  }

  /** With distinct property names, each stored property's column holds the
      mapper's value for the page's payload of that property (`{}` when the page lacks it). */
  lemma {:induction false} RowOfValue(page: Page, props: seq<Property>, mapper: Mapper, i: nat)
    requires UniqueNames(props) && i < |props| && !IsComputed(props[i].config.kind)
    ensures var row := RowOf(page, props, mapper);
      props[i].name in row && row[props[i].name] == mapper.extract(PayloadOf(page, props[i].name), props[i].config.kind)
  {
    var init := props[..|props| - 1];
    if i < |props| - 1 {
      assert init[i] == props[i];
      RowOfValue(page, init, mapper, i);
      assert props[|props| - 1].name != props[i].name;
    }
  }

  /** `notion_id` holds the page id, unless a stored property is itself named `notion_id` and overwrites it. */
  lemma {:induction false} RowOfNotionId(page: Page, props: seq<Property>, mapper: Mapper)
    requires forall i :: 0 <= i < |props| && props[i].name == "notion_id" ==> IsComputed(props[i].config.kind)
    ensures "notion_id" in RowOf(page, props, mapper) && RowOf(page, props, mapper)["notion_id"] == Text(page.id)
  {
    if props != [] {
      var init := props[..|props| - 1];
      assert forall i :: 0 <= i < |init| ==> init[i] == props[i];
      RowOfNotionId(page, init, mapper);
    }
  }

  /** `opt.get("color", "default")`. */
  function ColorOf(o: SelectOption): string
  {
    if o.color.Some? then o.color.value else "default"
  }

  /** The option-table row for one option. */
  function OptionRow(o: SelectOption): Row
  {
    map["id" := Text(o.id), "value" := Text(o.name), "color" := Text(ColorOf(o))]
  }

  /** Some row of the table has the given `id`. */
  predicate HasId(rows: seq<Row>, id: string)
  {
    exists i :: 0 <= i < |rows| && "id" in rows[i] && rows[i]["id"] == Text(id)
  }

  /** No two rows share an `id`. */
  predicate UniqueIds(rows: seq<Row>)
  {
    forall i, j :: 0 <= i < j < |rows| && "id" in rows[i] && "id" in rows[j] ==> rows[i]["id"] != rows[j]["id"]
  }

  /** A multi-row insert with `ON CONFLICT (id) DO NOTHING`: each option whose
      id is not yet in the table (counting the rows inserted before it) is appended. */
  function InsertIfAbsent(rows: seq<Row>, opts: seq<SelectOption>): seq<Row>
  {
    if opts == [] then rows
    else
      var r := InsertIfAbsent(rows, opts[..|opts| - 1]);
      var o := opts[|opts| - 1];
      if HasId(r, o.id) then r else r + [OptionRow(o)]
  }

  /** The insert keeps every existing row in place and only appends rows of
      the given options, at most one per option. */
  lemma {:induction false} InsertIfAbsentAppends(rows: seq<Row>, opts: seq<SelectOption>)
    ensures var r := InsertIfAbsent(rows, opts);
      |rows| <= |r| <= |rows| + |opts| && r[..|rows|] == rows
      && forall i :: |rows| <= i < |r| ==> exists j :: 0 <= j < |opts| && r[i] == OptionRow(opts[j])
  {
    if opts != [] {
      var init := opts[..|opts| - 1];
      InsertIfAbsentAppends(rows, init);
      var r0 := InsertIfAbsent(rows, init);
      var r := InsertIfAbsent(rows, opts);
      forall i | |rows| <= i < |r| ensures exists j :: 0 <= j < |opts| && r[i] == OptionRow(opts[j]) {
        if i < |r0| {
          var j :| 0 <= j < |init| && r0[i] == OptionRow(init[j]);
          assert r[i] == r0[i] && opts[j] == init[j];
        } else {
          assert r[i] == OptionRow(opts[|opts| - 1]);
        }
      }
    }
  }

  /** After the insert an id is present exactly when it was before or some option carries it. */
  lemma {:induction false} InsertIfAbsentHasId(rows: seq<Row>, opts: seq<SelectOption>, id: string)
    ensures HasId(InsertIfAbsent(rows, opts), id) <==> HasId(rows, id) || exists j :: 0 <= j < |opts| && opts[j].id == id
  {
    if opts != [] {
      var init := opts[..|opts| - 1];
      var o := opts[|opts| - 1];
      InsertIfAbsentHasId(rows, init, id);
      var r0 := InsertIfAbsent(rows, init);
      var r := InsertIfAbsent(rows, opts);
      if !HasId(r0, o.id) {
        assert r == r0 + [OptionRow(o)];
        if HasId(r, id) {
          var i :| 0 <= i < |r| && "id" in r[i] && r[i]["id"] == Text(id);
          if i < |r0| { assert r0[i] == r[i]; } else { assert o.id == id; }
        }
        if HasId(r0, id) {
          var i :| 0 <= i < |r0| && "id" in r0[i] && r0[i]["id"] == Text(id);
          assert r[i] == r0[i];
        }
        if o.id == id {
          assert r[|r0|] == OptionRow(o);
        }
      }
      if exists j :: 0 <= j < |opts| && opts[j].id == id {
        var j :| 0 <= j < |opts| && opts[j].id == id;
        if j < |init| { assert init[j] == opts[j]; }
      }
      if exists j :: 0 <= j < |init| && init[j].id == id {
        var j :| 0 <= j < |init| && init[j].id == id;
        assert opts[j] == init[j];
      }
    }
  }

  /** When every option's id is already present the insert changes nothing. */
  lemma {:induction false} InsertIfAbsentNoop(rows: seq<Row>, opts: seq<SelectOption>)
    requires forall j :: 0 <= j < |opts| ==> HasId(rows, opts[j].id)
    ensures InsertIfAbsent(rows, opts) == rows
  {
    if opts != [] {
      var init := opts[..|opts| - 1];
      assert forall j :: 0 <= j < |init| ==> init[j] == opts[j];
      InsertIfAbsentNoop(rows, init);
    }
  }

  /** Repeating the insert changes nothing: the option tables' idempotency. */
  lemma InsertIfAbsentIdempotent(rows: seq<Row>, opts: seq<SelectOption>)
    ensures InsertIfAbsent(InsertIfAbsent(rows, opts), opts) == InsertIfAbsent(rows, opts)
  {
    var r := InsertIfAbsent(rows, opts);
    forall j | 0 <= j < |opts| ensures HasId(r, opts[j].id) {
      InsertIfAbsentHasId(rows, opts, opts[j].id);
    }
    InsertIfAbsentNoop(r, opts);
  }

  /** The insert never creates a second row with an existing id. */
  lemma {:induction false} InsertIfAbsentUniqueIds(rows: seq<Row>, opts: seq<SelectOption>)
    requires UniqueIds(rows)
    ensures UniqueIds(InsertIfAbsent(rows, opts))
  {
    if opts != [] {
      var init := opts[..|opts| - 1];
      var o := opts[|opts| - 1];
      InsertIfAbsentUniqueIds(rows, init);
      var r0 := InsertIfAbsent(rows, init);
      if !HasId(r0, o.id) {
        var r := r0 + [OptionRow(o)];
        forall i, j | 0 <= i < j < |r| && "id" in r[i] && "id" in r[j] ensures r[i]["id"] != r[j]["id"] {
          if j == |r0| {
            assert r[i] == r0[i];
            assert r[j]["id"] == Text(o.id);
          } else {
            assert r[i] == r0[i] && r[j] == r0[j];
          }
        }
      }
    }
  }

  /** Every registered option table exists in the destination. */
  predicate RegistryInStore(lookupTables: map<string, TableDef>, store: map<string, seq<Row>>)
  {
    forall k :: k in lookupTables ==> lookupTables[k].name in store
  }

  /** The property is select or multi_select, has a registered option table
      under its raw name, and has at least one option. */
  predicate Populates(lookupTables: map<string, TableDef>, tableName: string, p: Property)
  {
    HasOptions(p.config.kind) && RegistryKey(tableName, p.name) in lookupTables && p.config.options != []
  }

  /** One iteration of `_populate_lookup_tables`. */
  function PopulateOne(store: map<string, seq<Row>>, lookupTables: map<string, TableDef>, tableName: string, p: Property): (r: map<string, seq<Row>>)
    requires RegistryInStore(lookupTables, store)
    ensures r.Keys == store.Keys
  {
    if !Populates(lookupTables, tableName, p) then store
    else
      var t := lookupTables[RegistryKey(tableName, p.name)].name;
      store[t := InsertIfAbsent(store[t], p.config.options)]
  }

  /** `_populate_lookup_tables`: the properties in order. */
  function PopulateAll(store: map<string, seq<Row>>, lookupTables: map<string, TableDef>, tableName: string, props: seq<Property>): (r: map<string, seq<Row>>)
    requires RegistryInStore(lookupTables, store)
    ensures r.Keys == store.Keys
  {
    if props == [] then store
    else PopulateOne(PopulateAll(store, lookupTables, tableName, props[..|props| - 1]), lookupTables, tableName, props[|props| - 1])
  }

  /** Every option of the property, if it populates a table, has its id in that table. */
  predicate Populated(store: map<string, seq<Row>>, lookupTables: map<string, TableDef>, tableName: string, p: Property)
    requires RegistryInStore(lookupTables, store)
  {
    Populates(lookupTables, tableName, p) ==>
      forall j :: 0 <= j < |p.config.options| ==>
        HasId(store[lookupTables[RegistryKey(tableName, p.name)].name], p.config.options[j].id)
  }

  lemma PopulateOneKeepsPopulated(store: map<string, seq<Row>>, lookupTables: map<string, TableDef>, tableName: string, p: Property, q: Property)
    requires RegistryInStore(lookupTables, store) && Populated(store, lookupTables, tableName, q)
    ensures Populated(PopulateOne(store, lookupTables, tableName, p), lookupTables, tableName, q)
  {
    if Populates(lookupTables, tableName, p) && Populates(lookupTables, tableName, q) {
      var t := lookupTables[RegistryKey(tableName, p.name)].name;
      var u := lookupTables[RegistryKey(tableName, q.name)].name;
      if t == u {
        forall j | 0 <= j < |q.config.options|
          ensures HasId(PopulateOne(store, lookupTables, tableName, p)[u], q.config.options[j].id)
        {
          InsertIfAbsentHasId(store[t], p.config.options, q.config.options[j].id);
        }
      }
    }
  }

  lemma PopulateOneDone(store: map<string, seq<Row>>, lookupTables: map<string, TableDef>, tableName: string, p: Property)
    requires RegistryInStore(lookupTables, store)
    ensures Populated(PopulateOne(store, lookupTables, tableName, p), lookupTables, tableName, p)
  {
    if Populates(lookupTables, tableName, p) {
      var t := lookupTables[RegistryKey(tableName, p.name)].name;
      forall j | 0 <= j < |p.config.options|
        ensures HasId(PopulateOne(store, lookupTables, tableName, p)[t], p.config.options[j].id)
      {
        InsertIfAbsentHasId(store[t], p.config.options, p.config.options[j].id);
      }
    }
  }

  lemma PopulateOneNoop(store: map<string, seq<Row>>, lookupTables: map<string, TableDef>, tableName: string, p: Property)
    requires RegistryInStore(lookupTables, store) && Populated(store, lookupTables, tableName, p)
    ensures PopulateOne(store, lookupTables, tableName, p) == store
  {
    if Populates(lookupTables, tableName, p) {
      var t := lookupTables[RegistryKey(tableName, p.name)].name;
      InsertIfAbsentNoop(store[t], p.config.options);
    }
  }

  /** After the loop every property's options are in its option table. */
  lemma {:induction false} PopulateAllDone(store: map<string, seq<Row>>, lookupTables: map<string, TableDef>, tableName: string, props: seq<Property>, i: nat)
    requires RegistryInStore(lookupTables, store) && i < |props|
    ensures Populated(PopulateAll(store, lookupTables, tableName, props), lookupTables, tableName, props[i])
  {
    var init := props[..|props| - 1];
    var s0 := PopulateAll(store, lookupTables, tableName, init);
    if i == |props| - 1 {
      PopulateOneDone(s0, lookupTables, tableName, props[i]);
    } else {
      assert init[i] == props[i];
      PopulateAllDone(store, lookupTables, tableName, init, i);
      PopulateOneKeepsPopulated(s0, lookupTables, tableName, props[|props| - 1], props[i]);
    }
  }

  /** When every property's options are already present the loop changes nothing. */
  lemma {:induction false} PopulateAllNoop(store: map<string, seq<Row>>, lookupTables: map<string, TableDef>, tableName: string, props: seq<Property>)
    requires RegistryInStore(lookupTables, store)
    requires forall i :: 0 <= i < |props| ==> Populated(store, lookupTables, tableName, props[i])
    ensures PopulateAll(store, lookupTables, tableName, props) == store
  {
    if props != [] {
      var init := props[..|props| - 1];
      assert forall i :: 0 <= i < |init| ==> init[i] == props[i];
      PopulateAllNoop(store, lookupTables, tableName, init);
      PopulateOneNoop(store, lookupTables, tableName, props[|props| - 1]);
    }
  }

  /** Populating the option tables a second time changes nothing. */
  lemma PopulateAllIdempotent(store: map<string, seq<Row>>, lookupTables: map<string, TableDef>, tableName: string, props: seq<Property>)
    requires RegistryInStore(lookupTables, store)
    ensures var s := PopulateAll(store, lookupTables, tableName, props);
      PopulateAll(s, lookupTables, tableName, props) == s
  {
    var s := PopulateAll(store, lookupTables, tableName, props);
    forall i | 0 <= i < |props| ensures Populated(s, lookupTables, tableName, props[i]) {
      PopulateAllDone(store, lookupTables, tableName, props, i);
    }
    PopulateAllNoop(s, lookupTables, tableName, props);
  }

  /** Populating only appends rows, and only to registered option tables; every other table is untouched. */
  lemma {:induction false} PopulateAllOnlyAppends(store: map<string, seq<Row>>, lookupTables: map<string, TableDef>, tableName: string, props: seq<Property>)
    requires RegistryInStore(lookupTables, store)
    ensures var r := PopulateAll(store, lookupTables, tableName, props);
      (forall n :: n in store ==> |store[n]| <= |r[n]| && r[n][..|store[n]|] == store[n])
      && (forall n :: n in store && (forall k :: k in lookupTables ==> lookupTables[k].name != n) ==> r[n] == store[n])
  {
    if props != [] {
      var init := props[..|props| - 1];
      var p := props[|props| - 1];
      PopulateAllOnlyAppends(store, lookupTables, tableName, init);
      var s0 := PopulateAll(store, lookupTables, tableName, init);
      if Populates(lookupTables, tableName, p) {
        var t := lookupTables[RegistryKey(tableName, p.name)].name;
        InsertIfAbsentAppends(s0[t], p.config.options);
        var r := PopulateAll(store, lookupTables, tableName, props);
        assert r == s0[t := InsertIfAbsent(s0[t], p.config.options)];
        forall n | n in store ensures |store[n]| <= |r[n]| && r[n][..|store[n]|] == store[n] {
          if n == t {
            assert r[n][..|s0[n]|] == s0[n];
            assert r[n][..|store[n]|] == s0[n][..|store[n]|];
          }
        }
      }
    }
  }
}
