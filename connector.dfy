/** The connector (Connector/Connector.cs): it probes the database once when
    it is built and records whether the database is missing, has the wrong
    tables, or is correct; it recreates the schema on request; and it runs
    one statement or one query per connection, copying query results into
    a DataTable.

    The database is the abstract state `db`. Whether a connection can be
    opened is not under the program's control: the environment is the set
    `refused` of the (0-based) connection attempts that fail, and
    `attempts` counts the attempts made so far. */
module SchemaConnector {
  import opened Wrappers
  import opened Schema
  import opened Store
  import opened Queries

  /** The outcome of the constructor's probe (Connector/Connector.cs:10-15). */
  datatype DatabaseState = Correct | Incorrect | Missing

  /** System.Data.DataTable, reduced to what the connector fills in: the
      column names and the rows. */
  class DataTable {
    var columns: seq<string>
    var rows: seq<seq<Value>>

    /** Every row has one cell per column. */
    predicate Valid()
      reads this
    {
      forall i :: 0 <= i < |rows| ==> |rows[i]| == |columns|
    }

    function Contents(): ResultSet
      reads this
    {
      ResultSet(columns, rows)
    }

    constructor ()
      ensures columns == [] && rows == []
      ensures Valid()
    {
      columns := [];
      rows := [];
    }

    /** `table.Columns.Add(name)`: existing rows get a NULL cell in the new column. */
    method AddColumn(name: string)
      requires Valid()
      modifies this
      ensures columns == old(columns) + [name]
      ensures |rows| == |old(rows)|
      ensures forall i :: 0 <= i < |rows| ==> rows[i] == old(rows)[i] + [Null]
      ensures Valid()
    {
      var filled := rows;
      rows := seq(|filled|, i requires 0 <= i < |filled| => filled[i] + [Null]);
      columns := columns + [name];
    }

    /** `table.Rows.Add(row)` for a row made by `table.NewRow()`. */
    method AddRow(row: seq<Value>)
      requires Valid() && |row| == |columns|
      modifies this
      ensures columns == old(columns) && rows == old(rows) + [row]
      ensures Valid()
    {
      rows := rows + [row];
    }
  }

  class Connector {
    /** The PostgreSQL database the connection string designates. */
    var db: Database
    var state: DatabaseState
    /** The connection attempts the server refuses. */
    const refused: set<nat>
    var attempts: nat

    /** Connector/Connector.cs:43-78: a probe connection decides Missing;
        otherwise CheckDatabase decides Incorrect or Correct. */
    constructor (db0: Database, refused: set<nat>)
      ensures this.db == db0 && this.refused == refused && attempts == 1
      ensures state == Missing <==> 0 in refused
      ensures state == Incorrect <==> 0 !in refused && !SchemaMatches(db0.catalog)
      ensures state == Correct <==> 0 !in refused && SchemaMatches(db0.catalog)
    {
      this.db := db0;
      this.refused := refused;
      attempts := 0;
      state := Correct;
      new;
      var connected := Open();
      if !connected {
        state := Missing;
      } else {
        var ok := CheckDatabase();
        if !ok {
          state := Incorrect;
        } else {
          state := Correct;
        }
      }
    }

    /** `connection.Open()`: one attempt, which the server may refuse. */
    method Open() returns (connected: bool)
      modifies this
      ensures connected <==> old(attempts) !in refused
      ensures attempts == old(attempts) + 1
      ensures db == old(db) && state == old(state)
    {
      connected := attempts !in refused;
      attempts := attempts + 1;
    }

    /** CheckDatabase (Connector/Connector.cs:134-166): each required table
        must be found in the catalog, the first missing one ending the
        check, and then all ten columns must pass CheckColumn. */
    method CheckDatabase() returns (ok: bool)
      ensures ok == SchemaMatches(db.catalog)
    {
      var tablesToCheck := RequiredTables;
      var k := 0;
      while k < |tablesToCheck|
        invariant 0 <= k <= |tablesToCheck|
        invariant forall j :: 0 <= j < k ==> tablesToCheck[j] in db.catalog.tables
      {
        var result := TableNameScalar(db.catalog, tablesToCheck[k]);
        if result.None? {
          return false;
        }
        k := k + 1;
      }
      var c := db.catalog;
      ok := CheckColumn(c, "person", "person_id", "integer", true, false)
        && CheckColumn(c, "person", "person_name", "character varying", false, false)
        && CheckColumn(c, "category", "category_id", "integer", true, false)
        && CheckColumn(c, "category", "category_name", "character varying", false, false)
        && CheckColumn(c, "transfer", "transfer_id", "integer", true, false)
        && CheckColumn(c, "transfer", "person_id", "integer", false, false)
        && CheckColumn(c, "transfer", "category_id", "integer", false, false)
        && CheckColumn(c, "transfer", "description", "character varying", false, false)
        && CheckColumn(c, "transfer", "amount", "double precision", false, false)
        && CheckColumn(c, "transfer", "done_at", "date", false, false);
    }

    /** CreateTables (Connector/Connector.cs:85-128): on one connection, drop
        and recreate the public schema, create the three tables, seed the two
        categories, and mark the database Correct. A refused connection
        throws before anything is changed. */
    method CreateTables() returns (outcome: Outcome<SqlError>)
      modifies this
      ensures attempts == old(attempts) + 1
      ensures outcome.Fail? <==> old(attempts) in refused
      ensures outcome.Fail? ==> outcome.error == ConnectionRefused && db == old(db) && state == old(state)
      ensures outcome.Pass? ==> db == Recreated(old(db)) && state == Correct
      ensures outcome.Pass? ==> SchemaMatches(db.catalog) && Valid(db)
    {
      var connected := Open();
      if !connected {
        return Fail(ConnectionRefused);
      }
      db := DropSchema(db);
      db := CreateTable(db, PersonTable);
      db := CreateTable(db, CategoryTable);
      db := CreateTable(db, TransferTable);
      db := Execute(db, InsertCategory(InterPersonCategoryName)).db;
      db := Execute(db, InsertCategory(OneOffCategoryName)).db;
      state := Correct;
      RecreatedDatabase(old(db));
      outcome := Pass;
    }

    /** ExecuteAction (Connector/Connector.cs:211-237): open a connection and
        run one statement on it; a refused connection or a rejected statement,
        including one naming a missing table, is the exception the caller
        receives. */
    method ExecuteAction(s: Statement) returns (outcome: Outcome<SqlError>)
      modifies this
      ensures attempts == old(attempts) + 1 && state == old(state)
      ensures old(attempts) in refused ==> outcome == Fail(ConnectionRefused) && db == old(db)
      ensures old(attempts) !in refused ==> Execute(old(db), s) == Executed(outcome, db)
      ensures Store.Valid(old(db)) ==> Store.Valid(db)
    {
      var connected := Open();
      if !connected {
        return Fail(ConnectionRefused);
      }
      var e := Execute(db, s);
      if Store.Valid(db) {
        ExecutePreservesValid(db, s);
      }
      outcome, db := e.outcome, e.db;
    }

    /** ExecuteTable (Connector/Connector.cs:265-298): run a query on a new
        connection and copy the reader's column names, then its rows cell by
        cell, into a new DataTable. A query naming a table the catalog does
        not list throws when the reader is opened (SQLSTATE 42P01). */
    method ExecuteTable(q: Query) returns (r: Result<DataTable, SqlError>)
      modifies this
      ensures attempts == old(attempts) + 1 && db == old(db) && state == old(state)
      ensures r.Failure? <==> old(attempts) in refused || !(QueryTables(q) <= db.catalog.tables)
      ensures r.Failure? ==> r.error == (if old(attempts) in refused then ConnectionRefused else UndefinedTable)
      ensures r.Success? ==> fresh(r.value) && r.value.Valid() && r.value.Contents() == Eval(db, q)
    {
      var connected := Open();
      if !connected {
        return Failure(ConnectionRefused);
      }
      if !(QueryTables(q) <= db.catalog.tables) {
        return Failure(UndefinedTable);
      }
      var reader := Eval(db, q);
      var table := Load(reader);
      r := Success(table);
    }

    /** The body of ExecuteTable's reader loop: the reader's column names
        become the table's columns, then each record becomes a row. */
    static method Load(reader: ResultSet) returns (table: DataTable)
      requires WellFormed(reader)
      ensures fresh(table) && table.Valid() && table.Contents() == reader
    {
      table := new DataTable();
      var fieldCount := |reader.fields|;
      for i := 0 to fieldCount
        modifies table
        invariant table.columns == reader.fields[..i] && table.rows == []
        invariant table.Valid()
      {
        table.AddColumn(reader.fields[i]);
      }
      assert reader.fields[..fieldCount] == reader.fields;
      for k := 0 to |reader.rows|
        modifies table
        invariant table.columns == reader.fields && table.rows == reader.rows[..k]
        invariant table.Valid()
      {
        var row := ReadRow(reader.rows[k]);
        table.AddRow(row);
        assert reader.rows[..k + 1] == reader.rows[..k] + [reader.rows[k]];
      }
      assert reader.rows[..|reader.rows|] == reader.rows;
    }

    /** One `reader.Read()` step: a new row whose cells are set one by one
        from the reader's current record. */
    static method ReadRow(record: seq<Value>) returns (row: seq<Value>)
      ensures row == record
    {
      var cells := new Value[|record|](_ => Null);
      for i := 0 to |record|
        invariant cells[..i] == record[..i]
      {
        cells[i] := record[i];
      }
      row := cells[..];
    }
  }
}
