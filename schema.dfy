/** The shape of the database: the part of PostgreSQL's `information_schema`
    that the connector inspects, the DDL that creates the three tables, and
    the fixed shape the connector expects (Connector/Connector.cs). */
module Schema {
  import opened Wrappers

  /** One row of `information_schema.columns`, restricted to the three
      attributes the check reads. The flags are the catalog's own
      `YES`/`NO` strings. */
  datatype ColumnInfo = ColumnInfo(dataType: string, isIdentity: string, isNullable: string)

  /** `tables` holds the `table_name`s of `information_schema.tables`;
      `columns` maps (table_name, column_name) to the column's row. */
  datatype Catalog = Catalog(tables: set<string>, columns: map<(string, string), ColumnInfo>)

  // ---------------------------------------------------------------- DDL

  /** The SQL types the CREATE TABLE statements use. */
  datatype SqlType = Int | Varchar(length: nat) | Float | DateType

  /** One column definition of a CREATE TABLE statement. `references` names
      the table of a `REFERENCES ... ON DELETE CASCADE` clause. */
  datatype ColumnDef = ColumnDef(
    name: string,
    sqlType: SqlType,
    notNull: bool,
    identity: bool,
    primaryKey: bool,
    unique: bool,
    references: Option<string>)

  datatype TableDef = TableDef(name: string, columns: seq<ColumnDef>)

  const PersonNameLength: nat := 50
  const CategoryNameLength: nat := 50
  const DescriptionLength: nat := 255

  /** `CREATE TABLE person (...)` */
  const PersonTable := TableDef("person", [
    ColumnDef("person_id", Int, true, true, true, false, None),
    ColumnDef("person_name", Varchar(PersonNameLength), true, false, false, true, None)])

  /** `CREATE TABLE category (...)` */
  const CategoryTable := TableDef("category", [
    ColumnDef("category_id", Int, true, true, true, false, None),
    ColumnDef("category_name", Varchar(CategoryNameLength), true, false, false, true, None)])

  /** `CREATE TABLE transfer (...)` */
  const TransferTable := TableDef("transfer", [
    ColumnDef("transfer_id", Int, true, true, true, false, None),
    ColumnDef("person_id", Int, true, false, false, false, Some("person")),
    ColumnDef("category_id", Int, true, false, false, false, Some("category")),
    ColumnDef("description", Varchar(DescriptionLength), true, false, false, false, None),
    ColumnDef("amount", Float, true, false, false, false, None),
    ColumnDef("done_at", DateType, true, false, false, false, None)])

  /** The three tables, in the order CreateTables creates them. */
  const SchemaDefinition := [PersonTable, CategoryTable, TransferTable]

  /** The columns whose values the table keeps distinct: its PRIMARY KEY
      and UNIQUE columns. */
  function KeyColumns(t: TableDef): (keys: set<string>)
    ensures forall k :: k in keys <==> exists c :: c in t.columns && c.name == k && (c.primaryKey || c.unique)
  {
    set c | c in t.columns && (c.primaryKey || c.unique) :: c.name
  }

  /** The (column, referenced table) pairs of the table's REFERENCES clauses. */
  function ForeignKeys(t: TableDef): (fks: set<(string, string)>)
    ensures forall col, target :: (col, target) in fks <==>
      exists c :: c in t.columns && c.name == col && c.references == Some(target)
  {
    set c | c in t.columns && c.references.Some? :: (c.name, c.references.value)
  }

  /** The constraints the three CREATE TABLE statements declare, which the
      integrity predicate of the row store spells out: ids and names are
      unique in person and category, ids in transfer, and a transfer
      references one person and one category. */
  lemma DeclaredConstraints()
    ensures KeyColumns(PersonTable) == {"person_id", "person_name"} && ForeignKeys(PersonTable) == {}
    ensures KeyColumns(CategoryTable) == {"category_id", "category_name"} && ForeignKeys(CategoryTable) == {}
    ensures KeyColumns(TransferTable) == {"transfer_id"}
    ensures ForeignKeys(TransferTable) == {("person_id", "person"), ("category_id", "category")}
  {
    TwoColumnConstraints(PersonTable);
    TwoColumnConstraints(CategoryTable);
    TransferConstraints();
  }

  lemma TwoColumnConstraints(t: TableDef)
    requires |t.columns| == 2 && t.columns[0].primaryKey && t.columns[1].unique
    requires t.columns[0].references.None? && t.columns[1].references.None?
    ensures KeyColumns(t) == {t.columns[0].name, t.columns[1].name} && ForeignKeys(t) == {}
  {
    assert t.columns[0] in t.columns && t.columns[1] in t.columns;
  }

  lemma TransferConstraints()
    ensures KeyColumns(TransferTable) == {"transfer_id"}
    ensures ForeignKeys(TransferTable) == {("person_id", "person"), ("category_id", "category")}
  {
    var cols := TransferTable.columns;
    assert cols[0] in cols && cols[1] in cols && cols[2] in cols;
    assert forall c :: c in cols ==> c == cols[0] || c == cols[1] || c == cols[2] || c == cols[3] || c == cols[4] || c == cols[5];
  }

  /** The `data_type` PostgreSQL reports for a declared type: INT is
      `integer`, VARCHAR(n) is `character varying`, FLOAT without a
      precision is `double precision`, DATE is `date`. */
  function InformationSchemaType(t: SqlType): string
  {
    match t
    case Int => "integer"
    case Varchar(_) => "character varying"
    case Float => "double precision"
    case DateType => "date"
  }

  function YesNo(b: bool): string
  {
    if b then "YES" else "NO"
  }

  /** The catalog row PostgreSQL derives from a column definition: an
      identity column reports `is_identity = YES`; a NOT NULL or PRIMARY KEY
      column reports `is_nullable = NO`. */
  function InfoOf(c: ColumnDef): (info: ColumnInfo)
    ensures info.isIdentity == "YES" <==> c.identity
    ensures info.isNullable == "NO" <==> c.notNull || c.primaryKey
    ensures c.sqlType.Varchar? ==> info.dataType == "character varying"
    ensures info.dataType == "integer" <==> c.sqlType == Int
  {
    ColumnInfo(InformationSchemaType(c.sqlType), YesNo(c.identity), YesNo(!(c.notNull || c.primaryKey)))
  }

  function ColumnsOf(table: string, cols: seq<ColumnDef>): map<(string, string), ColumnInfo>
  {
    if cols == [] then map[]
    else ColumnsOf(table, cols[..|cols| - 1])[(table, cols[|cols| - 1].name) := InfoOf(cols[|cols| - 1])]
  }

  /** The catalog after running the CREATE TABLE statements `defs` in order
      on an empty schema. */
  function CatalogOf(defs: seq<TableDef>): Catalog
  {
    if defs == [] then Catalog({}, map[])
    else
      var c := CatalogOf(defs[..|defs| - 1]);
      var t := defs[|defs| - 1];
      Catalog(c.tables + {t.name}, c.columns + ColumnsOf(t.name, t.columns))
  }

  /** The (data_type, is_identity, is_nullable) triples PostgreSQL reports
      for the ten columns of the three CREATE TABLE statements. */
  const DefinedColumns := map[
    ("person", "person_id") := ColumnInfo("integer", "YES", "NO"),
    ("person", "person_name") := ColumnInfo("character varying", "NO", "NO"),
    ("category", "category_id") := ColumnInfo("integer", "YES", "NO"),
    ("category", "category_name") := ColumnInfo("character varying", "NO", "NO"),
    ("transfer", "transfer_id") := ColumnInfo("integer", "YES", "NO"),
    ("transfer", "person_id") := ColumnInfo("integer", "NO", "NO"),
    ("transfer", "category_id") := ColumnInfo("integer", "NO", "NO"),
    ("transfer", "description") := ColumnInfo("character varying", "NO", "NO"),
    ("transfer", "amount") := ColumnInfo("double precision", "NO", "NO"),
    ("transfer", "done_at") := ColumnInfo("date", "NO", "NO")]

  // ------------------------------------------------------------ the check

  /** `tablesToCheck` of CheckDatabase. */
  const RequiredTables := ["person", "category", "transfer"]

  /** `SELECT table_name FROM information_schema.tables WHERE table_name = @tableName`
      as ExecuteScalar returns it: the name, or no value when there is no row. */
  function TableNameScalar(c: Catalog, table: string): Option<string>
  {
    if table in c.tables then Some(table) else None
  }

  /** CheckColumn: the column's catalog row has the expected data type, and
      its identity and nullability flags read YES/NO as `isPrimaryKey` and
      `nullable` say; a column without a catalog row fails. */
  function CheckColumn(c: Catalog, tableName: string, columnName: string,
                       columnType: string, isPrimaryKey: bool, nullable: bool): (ok: bool)
    ensures ok <==> (tableName, columnName) in c.columns
                    && c.columns[(tableName, columnName)]
                       == ColumnInfo(columnType, YesNo(isPrimaryKey), YesNo(nullable))
  {
    if (tableName, columnName) in c.columns then
      var row := c.columns[(tableName, columnName)];
      row.dataType == columnType
      && row.isIdentity == (if isPrimaryKey then "YES" else "NO")
      && row.isNullable == (if nullable then "YES" else "NO")
    else false
  }

  /** The ten-way conjunction of CheckDatabase. */
  predicate ColumnsMatch(c: Catalog)
  {
    CheckColumn(c, "person", "person_id", "integer", true, false)
    && CheckColumn(c, "person", "person_name", "character varying", false, false)
    && CheckColumn(c, "category", "category_id", "integer", true, false)
    && CheckColumn(c, "category", "category_name", "character varying", false, false)
    && CheckColumn(c, "transfer", "transfer_id", "integer", true, false)
    && CheckColumn(c, "transfer", "person_id", "integer", false, false)
    && CheckColumn(c, "transfer", "category_id", "integer", false, false)
    && CheckColumn(c, "transfer", "description", "character varying", false, false)
    && CheckColumn(c, "transfer", "amount", "double precision", false, false)
    && CheckColumn(c, "transfer", "done_at", "date", false, false)
  }

  predicate TablesPresent(c: Catalog)
  {
    forall i :: 0 <= i < |RequiredTables| ==> RequiredTables[i] in c.tables
  }

  /** What CheckDatabase returns for a catalog. */
  predicate SchemaMatches(c: Catalog)
  {
    TablesPresent(c) && ColumnsMatch(c)
  }

  // ------------------------------------------------------------- lemmas

  lemma PersonColumns()
    ensures ColumnsOf("person", PersonTable.columns) == map[
      ("person", "person_id") := ColumnInfo("integer", "YES", "NO"),
      ("person", "person_name") := ColumnInfo("character varying", "NO", "NO")]
  {
    var cols := PersonTable.columns;
    assert cols[..1][..0] == [] && cols[..1] == [cols[0]];
    assert ColumnsOf("person", cols[..1]) == map[("person", "person_id") := InfoOf(cols[0])];
    assert ColumnsOf("person", cols) == ColumnsOf("person", cols[..1])[("person", "person_name") := InfoOf(cols[1])];
  }

  lemma CategoryColumns()
    ensures ColumnsOf("category", CategoryTable.columns) == map[
      ("category", "category_id") := ColumnInfo("integer", "YES", "NO"),
      ("category", "category_name") := ColumnInfo("character varying", "NO", "NO")]
  {
    var cols := CategoryTable.columns;
    assert cols[..1][..0] == [] && cols[..1] == [cols[0]];
    assert ColumnsOf("category", cols[..1]) == map[("category", "category_id") := InfoOf(cols[0])];
    assert ColumnsOf("category", cols) == ColumnsOf("category", cols[..1])[("category", "category_name") := InfoOf(cols[1])];
  }

  lemma TransferColumns()
    ensures ColumnsOf("transfer", TransferTable.columns) == map[
      ("transfer", "transfer_id") := ColumnInfo("integer", "YES", "NO"),
      ("transfer", "person_id") := ColumnInfo("integer", "NO", "NO"),
      ("transfer", "category_id") := ColumnInfo("integer", "NO", "NO"),
      ("transfer", "description") := ColumnInfo("character varying", "NO", "NO"),
      ("transfer", "amount") := ColumnInfo("double precision", "NO", "NO"),
      ("transfer", "done_at") := ColumnInfo("date", "NO", "NO")]
  {
    var cols := TransferTable.columns;
    assert cols[..1][..0] == [];
    assert cols[..1] == cols[..2][..1] == cols[..3][..1] == cols[..4][..1] == cols[..5][..1];
    assert cols[..2] == cols[..3][..2] == cols[..4][..2] == cols[..5][..2];
    assert cols[..3] == cols[..4][..3] == cols[..5][..3];
    assert cols[..4] == cols[..5][..4];
    var t := "transfer";
    assert ColumnsOf(t, cols[..1]) == map[(t, "transfer_id") := InfoOf(cols[0])];
    assert ColumnsOf(t, cols[..2]) == ColumnsOf(t, cols[..1])[(t, "person_id") := InfoOf(cols[1])];
    assert ColumnsOf(t, cols[..3]) == ColumnsOf(t, cols[..2])[(t, "category_id") := InfoOf(cols[2])];
    assert ColumnsOf(t, cols[..4]) == ColumnsOf(t, cols[..3])[(t, "description") := InfoOf(cols[3])];
    assert ColumnsOf(t, cols[..5]) == ColumnsOf(t, cols[..4])[(t, "amount") := InfoOf(cols[4])];
    assert ColumnsOf(t, cols) == ColumnsOf(t, cols[..5])[(t, "done_at") := InfoOf(cols[5])];
  }

  lemma CatalogOfPerson()
    ensures CatalogOf([PersonTable]) == Catalog({"person"}, ColumnsOf("person", PersonTable.columns))
  {
    assert [PersonTable][..0] == [];
    assert map[] + ColumnsOf("person", PersonTable.columns) == ColumnsOf("person", PersonTable.columns);
  }

  lemma CatalogOfPersonCategory()
    ensures CatalogOf([PersonTable, CategoryTable])
         == Catalog({"person", "category"},
                    ColumnsOf("person", PersonTable.columns) + ColumnsOf("category", CategoryTable.columns))
  {
    assert [PersonTable, CategoryTable][..1] == [PersonTable];
    CatalogOfPerson();
  }

  lemma MergedColumns()
    ensures ColumnsOf("person", PersonTable.columns)
            + ColumnsOf("category", CategoryTable.columns)
            + ColumnsOf("transfer", TransferTable.columns) == DefinedColumns
  {
    PersonColumns();
    CategoryColumns();
    TransferColumns();
  }

  /** Running the three CREATE TABLE statements yields the three tables with
      exactly the ten column triples above. */
  lemma DefinedCatalog()
    ensures CatalogOf(SchemaDefinition).tables == {"person", "category", "transfer"}
    ensures CatalogOf(SchemaDefinition).columns == DefinedColumns
  {
    assert SchemaDefinition[..2] == [PersonTable, CategoryTable];
    CatalogOfPersonCategory();
    MergedColumns();
  }

  /** The schema CreateTables builds passes CheckDatabase. */
  lemma DefinedSchemaPassesCheck()
    ensures SchemaMatches(CatalogOf(SchemaDefinition))
  {
    DefinedCatalog();
  }

  /** The ten conjuncts of ColumnsMatch say that the catalog agrees with
      DefinedColumns on every one of its keys. */
  lemma ColumnsMatchIffAgrees(c: Catalog)
    ensures ColumnsMatch(c) <==>
              forall key :: key in DefinedColumns ==> key in c.columns && c.columns[key] == DefinedColumns[key]
  {
    var keys := DefinedColumns.Keys;
    assert keys == {("person", "person_id"), ("person", "person_name"),
                    ("category", "category_id"), ("category", "category_name"),
                    ("transfer", "transfer_id"), ("transfer", "person_id"), ("transfer", "category_id"),
                    ("transfer", "description"), ("transfer", "amount"), ("transfer", "done_at")};
    if ColumnsMatch(c) {
      forall key | key in DefinedColumns
        ensures key in c.columns && c.columns[key] == DefinedColumns[key]
      {
        assert key in keys;
      }
    }
  }

  /** CheckDatabase accepts exactly the catalogs that have the three tables
      and agree with the schema's own catalog on every column it defines:
      a change to any single attribute of any of the ten columns fails it. */
  lemma SchemaMatchesIffAgreesWithDefinition(c: Catalog)
    ensures SchemaMatches(c) <==>
              TablesPresent(c)
              && forall key :: key in CatalogOf(SchemaDefinition).columns ==>
                   key in c.columns && c.columns[key] == CatalogOf(SchemaDefinition).columns[key]
  {
    DefinedCatalog();
    ColumnsMatchIffAgrees(c);
  }

  /** A catalog missing a required table fails the check whatever its columns. */
  lemma MissingTableFailsCheck(c: Catalog, table: string)
    requires table in RequiredTables && table !in c.tables
    ensures !SchemaMatches(c)
  {
    var i :| 0 <= i < |RequiredTables| && RequiredTables[i] == table;
  }

  /** A single column whose catalog row differs from the defined one fails the check. */
  lemma ColumnMismatchFailsCheck(c: Catalog, table: string, column: string)
    requires (table, column) in CatalogOf(SchemaDefinition).columns
    requires (table, column) !in c.columns
             || c.columns[(table, column)] != CatalogOf(SchemaDefinition).columns[(table, column)]
    ensures !SchemaMatches(c)
  {
    SchemaMatchesIffAgreesWithDefinition(c);
  }

  /** A reachable database without tables fails the check. */
  lemma EmptyCatalogFailsCheck()
    ensures !SchemaMatches(Catalog({}, map[]))
  {
    MissingTableFailsCheck(Catalog({}, map[]), "person");
  }
}
