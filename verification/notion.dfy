/** The values the migrator reads from the Notion API and writes to
    PostgreSQL, and the property mapper it calls. Dictionary keys the source
    reads with `.get(key, default)` become fields whose "missing" case is the
    default (an empty sequence, `None`, `Absent`). */
module Notion {

  datatype Option<+T> = None | Some(value: T)

  /** A rich-text fragment of a title or description; `None` when it has no `plain_text` key. */
  datatype RichText = RichText(plainText: Option<string>)

  /** The `type` tag of a database property. */
  datatype PropType =
    | Title | RichTextProp | Number | Select | MultiSelect | Date | Checkbox
    | Url | Email | PhoneNumber | People | Files | Relation | Formula | Rollup
    | CreatedTime | LastEditedTime | Status | OtherType(tag: string)

  /** Formula and rollup properties are computed by Notion and never stored as row values. */
  predicate IsComputed(t: PropType) { t.Formula? || t.Rollup? }

  predicate HasOptions(t: PropType) { t.Select? || t.MultiSelect? }

  /** One entry of `config[type]["options"]`; `color` is `None` when the key is missing. */
  datatype SelectOption = SelectOption(id: string, name: string, color: Option<string>)

  /** A property definition: its type and, for select and multi_select, its
      option list (empty when `config[type]` or its `options` key is missing). */
  datatype PropConfig = PropConfig(kind: PropType, options: seq<SelectOption>)

  /** One `name: config` entry of a database's `properties` dictionary, in dictionary order. */
  datatype Property = Property(name: string, config: PropConfig)

  /** Property names are dictionary keys, hence pairwise distinct. */
  predicate UniqueNames(props: seq<Property>)
  {
    forall i, j :: 0 <= i < j < |props| ==> props[i].name != props[j].name
  }

  /** What `databases.retrieve` returns: the properties and an optional description. */
  datatype Details = Details(properties: seq<Property>, description: Option<seq<RichText>>)

  /** A database object from `search`; `title` is `None` when the key is missing or null. */
  datatype DbObject = DbObject(id: string, title: Option<seq<RichText>>)

  /** The `{id, title, details}` record `_get_databases` builds for each kept database. */
  datatype DetailedDb = DetailedDb(id: string, title: string, details: Details)

  /** A page's value for one property, passed to the mapper unread; `Absent` is the `{}` default. */
  datatype Payload = Absent | Json(text: string)

  /** A database row (page): its id and its `properties` dictionary (missing = empty). */
  datatype Page = Page(id: string, properties: map<string, Payload>)

  /** One paginated API answer: `results`, `has_more` (missing = false) and `next_cursor`. */
  datatype Response<T> = Response(results: seq<T>, hasMore: bool, nextCursor: Option<string>)

  /** A value stored in a PostgreSQL cell. */
  datatype Value = Null | Text(text: string) | Stored(repr: string)

  /** A row handed to an insert: column name to value. */
  type Row = map<string, Value>

  datatype SqlType = Varchar(length: nat) | MappedType(name: string)

  datatype Column = Column(name: string, sqlType: SqlType, primaryKey: bool, nullable: bool)

  /** A SQLAlchemy `Table` as the migrator builds it. */
  datatype TableDef = TableDef(name: string, columns: seq<Column>, comment: Option<string>)

  /** `NotionPropertyMapper`, whose code is not part of this model: its four
      methods are uninterpreted functions. */
  datatype Mapper = Mapper(
    column: (string, PropConfig) -> Option<Column>,  // get_postgres_column
    needsLookup: PropConfig -> bool,                  // needs_lookup_table
    lookupName: (string, string) -> string,           // get_lookup_table_name
    extract: (Payload, PropType) -> Value)            // extract_property_value

  /** The Notion calls the migrator issues. */
  datatype Request =
    | Search(cursor: Option<string>)
    | Retrieve(databaseId: string)
    | Query(databaseId: string, cursor: Option<string>, pageSize: nat)
}
