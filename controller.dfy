/** The controller (Controller/Controller.cs): one method per database
    action of the application. Listing methods run a SELECT through the
    connector and keep the last successful listing of persons, categories
    and transfers; filtered and grouped queries return their table without
    keeping it; add and remove methods run INSERT and DELETE statements. */
module RecordService {
  import opened Wrappers
  import opened Dates
  import opened Schema
  import opened Store
  import opened Queries
  import opened SchemaConnector

  /** The number of statements of a run of `n`, starting at connection
      attempt `start`, that get a connection before the first refusal. */
  function FirstRefused(refused: set<nat>, start: nat, n: nat): (k: nat)
    ensures k <= n
    ensures forall a :: start <= a < start + k ==> a !in refused
    ensures k < n ==> start + k in refused
    decreases n
  {
    if n == 0 || start in refused then 0 else 1 + FirstRefused(refused, start + 1, n - 1)
  }

  /** FirstRefused is the only count with those properties. */
  lemma FirstRefusedUnique(refused: set<nat>, start: nat, n: nat, k: nat)
    requires k <= n
    requires forall a :: start <= a < start + k ==> a !in refused
    requires k < n ==> start + k in refused
    ensures FirstRefused(refused, start, n) == k
  {
  }

  class Controller {
    const connector: Connector
    /** The last person listing GetPersons obtained. */
    var persons: DataTable
    /** The last category listing GetCategories obtained. */
    var categories: DataTable
    /** The last transfer listing GetTransfers obtained. */
    var transfers: DataTable

    /** Controller/Controller.cs:43-46: a connector for the database, and
        three empty listings. */
    constructor (db0: Database, refused: set<nat>)
      ensures fresh(connector) && connector.db == db0 && connector.refused == refused
      ensures connector.attempts == 1
      ensures connector.state == Missing <==> 0 in refused
      ensures connector.state == Incorrect <==> 0 !in refused && !SchemaMatches(db0.catalog)
      ensures connector.state == Correct <==> 0 !in refused && SchemaMatches(db0.catalog)
      ensures fresh(persons) && persons.columns == [] && persons.rows == []
      ensures fresh(categories) && categories.columns == [] && categories.rows == []
      ensures fresh(transfers) && transfers.columns == [] && transfers.rows == []
    {
      connector := new Connector(db0, refused);
      persons := new DataTable();
      categories := new DataTable();
      transfers := new DataTable();
    }

    /** GetPersons (Controller/Controller.cs:54-69): every person with the
        total of the person's transfers; on success it becomes the kept
        person listing. */
    method GetPersons() returns (r: Result<DataTable, SqlError>)
      modifies this, connector
      ensures connector.db == old(connector.db) && connector.state == old(connector.state)
      ensures connector.attempts == old(connector.attempts) + 1
      ensures r.Failure? <==>
        old(connector.attempts) in connector.refused || !({"person", "transfer"} <= connector.db.catalog.tables)
      ensures r.Success? ==>
        && fresh(r.value) && r.value.Valid() && r.value.Contents() == Eval(connector.db, AllPersons)
        && persons == r.value
      ensures r.Failure? ==>
        && r.error == (if old(connector.attempts) in connector.refused then ConnectionRefused else UndefinedTable)
        && persons == old(persons)
      ensures categories == old(categories) && transfers == old(transfers)
    {
      r := connector.ExecuteTable(AllPersons);
      if r.Success? {
        persons := r.value;
      }
    }

    /** GetTransfers (Controller/Controller.cs:75-88): every transfer with
        its person's name; on success it becomes the kept transfer listing. */
    method GetTransfers() returns (r: Result<DataTable, SqlError>)
      modifies this, connector
      ensures connector.db == old(connector.db) && connector.state == old(connector.state)
      ensures connector.attempts == old(connector.attempts) + 1
      ensures r.Failure? <==>
        old(connector.attempts) in connector.refused || !({"transfer", "person"} <= connector.db.catalog.tables)
      ensures r.Success? ==>
        && fresh(r.value) && r.value.Valid() && r.value.Contents() == Eval(connector.db, AllTransfers)
        && transfers == r.value
      ensures r.Failure? ==>
        && r.error == (if old(connector.attempts) in connector.refused then ConnectionRefused else UndefinedTable)
        && transfers == old(transfers)
      ensures persons == old(persons) && categories == old(categories)
    {
      r := connector.ExecuteTable(AllTransfers);
      if r.Success? {
        transfers := r.value;
      }
    }

    /** GetCategories (Controller/Controller.cs:94-99): the category table;
        on success it becomes the kept category listing. */
    method GetCategories() returns (r: Result<DataTable, SqlError>)
      modifies this, connector
      ensures connector.db == old(connector.db) && connector.state == old(connector.state)
      ensures connector.attempts == old(connector.attempts) + 1
      ensures r.Failure? <==>
        old(connector.attempts) in connector.refused || !({"category"} <= connector.db.catalog.tables)
      ensures r.Success? ==>
        && fresh(r.value) && r.value.Valid() && r.value.Contents() == Eval(connector.db, AllCategories)
        && categories == r.value
      ensures r.Failure? ==>
        && r.error == (if old(connector.attempts) in connector.refused then ConnectionRefused else UndefinedTable)
        && categories == old(categories)
      ensures persons == old(persons) && transfers == old(transfers)
    {
      r := connector.ExecuteTable(AllCategories);
      if r.Success? {
        categories := r.value;
      }
    }

    /** A filtered or grouped query: its table is returned, not kept. */
    method Select(q: Query) returns (r: Result<DataTable, SqlError>)
      modifies connector
      ensures connector.db == old(connector.db) && connector.state == old(connector.state)
      ensures connector.attempts == old(connector.attempts) + 1
      ensures r.Failure? <==>
        old(connector.attempts) in connector.refused || !(QueryTables(q) <= connector.db.catalog.tables)
      ensures r.Success? ==> fresh(r.value) && r.value.Valid() && r.value.Contents() == Eval(connector.db, q)
      ensures r.Failure? ==>
        r.error == (if old(connector.attempts) in connector.refused then ConnectionRefused else UndefinedTable)
    {
      r := connector.ExecuteTable(q);
    }

    /** GetTransfersByPerson (Controller/Controller.cs:108-125). */
    method GetTransfersByPerson(personId: int) returns (r: Result<DataTable, SqlError>)
      modifies connector
      ensures connector.db == old(connector.db) && connector.state == old(connector.state)
      ensures connector.attempts == old(connector.attempts) + 1
      ensures r.Failure? <==>
        old(connector.attempts) in connector.refused || !({"transfer", "person"} <= connector.db.catalog.tables)
      ensures r.Success? ==>
        && fresh(r.value) && r.value.Valid()
        && r.value.Contents() == Eval(connector.db, FilteredTransfers(Filter(Some(personId), None, None)))
      ensures r.Failure? ==>
        r.error == (if old(connector.attempts) in connector.refused then ConnectionRefused else UndefinedTable)
    {
      r := Select(FilteredTransfers(Filter(Some(personId), None, None)));
    }

    /** GetTransfersPerPeriod (Controller/Controller.cs:133-151). */
    method GetTransfersPerPeriod(dateFrom: CalendarDate, dateTo: CalendarDate) returns (r: Result<DataTable, SqlError>)
      modifies connector
      ensures connector.db == old(connector.db) && connector.state == old(connector.state)
      ensures connector.attempts == old(connector.attempts) + 1
      ensures r.Failure? <==>
        old(connector.attempts) in connector.refused || !({"transfer", "person"} <= connector.db.catalog.tables)
      ensures r.Success? ==>
        && fresh(r.value) && r.value.Valid()
        && r.value.Contents()
           == Eval(connector.db, FilteredTransfers(Filter(None, None, Some(Period(dateFrom, dateTo)))))
      ensures r.Failure? ==>
        r.error == (if old(connector.attempts) in connector.refused then ConnectionRefused else UndefinedTable)
    {
      r := Select(FilteredTransfers(Filter(None, None, Some(Period(dateFrom, dateTo)))));
    }

    /** GetTransfersPerCategory (Controller/Controller.cs:158-177). */
    method GetTransfersPerCategory(categoryId: int) returns (r: Result<DataTable, SqlError>)
      modifies connector
      ensures connector.db == old(connector.db) && connector.state == old(connector.state)
      ensures connector.attempts == old(connector.attempts) + 1
      ensures r.Failure? <==>
        old(connector.attempts) in connector.refused || !({"transfer", "person", "category"} <= connector.db.catalog.tables)
      ensures r.Success? ==>
        && fresh(r.value) && r.value.Valid()
        && r.value.Contents() == Eval(connector.db, FilteredTransfers(Filter(None, Some(categoryId), None)))
      ensures r.Failure? ==>
        r.error == (if old(connector.attempts) in connector.refused then ConnectionRefused else UndefinedTable)
    {
      r := Select(FilteredTransfers(Filter(None, Some(categoryId), None)));
    }

    /** GetTransfersPerPersonAndCategory (Controller/Controller.cs:185-205). */
    method GetTransfersPerPersonAndCategory(personId: int, categoryId: int) returns (r: Result<DataTable, SqlError>)
      modifies connector
      ensures connector.db == old(connector.db) && connector.state == old(connector.state)
      ensures connector.attempts == old(connector.attempts) + 1
      ensures r.Failure? <==>
        old(connector.attempts) in connector.refused || !({"transfer", "person", "category"} <= connector.db.catalog.tables)
      ensures r.Success? ==>
        && fresh(r.value) && r.value.Valid()
        && r.value.Contents()
           == Eval(connector.db, FilteredTransfers(Filter(Some(personId), Some(categoryId), None)))
      ensures r.Failure? ==>
        r.error == (if old(connector.attempts) in connector.refused then ConnectionRefused else UndefinedTable)
    {
      r := Select(FilteredTransfers(Filter(Some(personId), Some(categoryId), None)));
    }

    /** GetTransferByPersonPerPeriod (Controller/Controller.cs:214-233). */
    method GetTransferByPersonPerPeriod(dateFrom: CalendarDate, dateTo: CalendarDate, id: int)
      returns (r: Result<DataTable, SqlError>)
      modifies connector
      ensures connector.db == old(connector.db) && connector.state == old(connector.state)
      ensures connector.attempts == old(connector.attempts) + 1
      ensures r.Failure? <==>
        old(connector.attempts) in connector.refused || !({"transfer", "person"} <= connector.db.catalog.tables)
      ensures r.Success? ==>
        && fresh(r.value) && r.value.Valid()
        && r.value.Contents()
           == Eval(connector.db, FilteredTransfers(Filter(Some(id), None, Some(Period(dateFrom, dateTo)))))
      ensures r.Failure? ==>
        r.error == (if old(connector.attempts) in connector.refused then ConnectionRefused else UndefinedTable)
    {
      r := Select(FilteredTransfers(Filter(Some(id), None, Some(Period(dateFrom, dateTo)))));
    }

    /** GetTransfersPerCategoryAndPeriod (Controller/Controller.cs:242-263). */
    method GetTransfersPerCategoryAndPeriod(dateFrom: CalendarDate, dateTo: CalendarDate, categoryId: int)
      returns (r: Result<DataTable, SqlError>)
      modifies connector
      ensures connector.db == old(connector.db) && connector.state == old(connector.state)
      ensures connector.attempts == old(connector.attempts) + 1
      ensures r.Failure? <==>
        old(connector.attempts) in connector.refused || !({"transfer", "person", "category"} <= connector.db.catalog.tables)
      ensures r.Success? ==>
        && fresh(r.value) && r.value.Valid()
        && r.value.Contents()
           == Eval(connector.db, FilteredTransfers(Filter(None, Some(categoryId), Some(Period(dateFrom, dateTo)))))
      ensures r.Failure? ==>
        r.error == (if old(connector.attempts) in connector.refused then ConnectionRefused else UndefinedTable)
    {
      r := Select(FilteredTransfers(Filter(None, Some(categoryId), Some(Period(dateFrom, dateTo)))));
    }

    /** GetTransfersPerCategoryAndPeriodAndPerson (Controller/Controller.cs:273-295). */
    method GetTransfersPerCategoryAndPeriodAndPerson(dateFrom: CalendarDate, dateTo: CalendarDate,
                                                     personId: int, categoryId: int)
      returns (r: Result<DataTable, SqlError>)
      modifies connector
      ensures connector.db == old(connector.db) && connector.state == old(connector.state)
      ensures connector.attempts == old(connector.attempts) + 1
      ensures r.Failure? <==>
        old(connector.attempts) in connector.refused || !({"transfer", "person", "category"} <= connector.db.catalog.tables)
      ensures r.Success? ==>
        && fresh(r.value) && r.value.Valid()
        && r.value.Contents()
           == Eval(connector.db,
                   FilteredTransfers(Filter(Some(personId), Some(categoryId), Some(Period(dateFrom, dateTo)))))
      ensures r.Failure? ==>
        r.error == (if old(connector.attempts) in connector.refused then ConnectionRefused else UndefinedTable)
    {
      r := Select(FilteredTransfers(Filter(Some(personId), Some(categoryId), Some(Period(dateFrom, dateTo)))));
    }

    /** GetTransfersGroupByCategory (Controller/Controller.cs:301-315). */
    method GetTransfersGroupByCategory() returns (r: Result<DataTable, SqlError>)
      modifies connector
      ensures connector.db == old(connector.db) && connector.state == old(connector.state)
      ensures connector.attempts == old(connector.attempts) + 1
      ensures r.Failure? <==>
        old(connector.attempts) in connector.refused || !({"transfer", "person", "category"} <= connector.db.catalog.tables)
      ensures r.Success? ==>
        && fresh(r.value) && r.value.Valid()
        && r.value.Contents() == Eval(connector.db, TotalsByCategory)
      ensures r.Failure? ==>
        r.error == (if old(connector.attempts) in connector.refused then ConnectionRefused else UndefinedTable)
    {
      r := Select(TotalsByCategory);
    }

    /** AddPerson (Controller/Controller.cs:323-331). */
    method AddPerson(personName: string) returns (outcome: Outcome<SqlError>)
      modifies connector
      ensures connector.attempts == old(connector.attempts) + 1 && connector.state == old(connector.state)
      ensures old(connector.attempts) in connector.refused ==>
        outcome == Fail(ConnectionRefused) && connector.db == old(connector.db)
      ensures old(connector.attempts) !in connector.refused ==>
        Execute(old(connector.db), InsertPerson(personName)) == Executed(outcome, connector.db)
      ensures Store.Valid(old(connector.db)) ==> Store.Valid(connector.db)
    {
      outcome := connector.ExecuteAction(InsertPerson(personName));
    }

    /** AddCategory (Controller/Controller.cs:337-345). */
    method AddCategory(categoryName: string) returns (outcome: Outcome<SqlError>)
      modifies connector
      ensures connector.attempts == old(connector.attempts) + 1 && connector.state == old(connector.state)
      ensures old(connector.attempts) in connector.refused ==>
        outcome == Fail(ConnectionRefused) && connector.db == old(connector.db)
      ensures old(connector.attempts) !in connector.refused ==>
        Execute(old(connector.db), InsertCategory(categoryName)) == Executed(outcome, connector.db)
      ensures Store.Valid(old(connector.db)) ==> Store.Valid(connector.db)
    {
      outcome := connector.ExecuteAction(InsertCategory(categoryName));
    }

    /** AddTransfer (Controller/Controller.cs:355-368). */
    method AddTransfer(personId: int, categoryId: int, description: string, amount: real, date: CalendarDate)
      returns (outcome: Outcome<SqlError>)
      modifies connector
      ensures connector.attempts == old(connector.attempts) + 1 && connector.state == old(connector.state)
      ensures old(connector.attempts) in connector.refused ==>
        outcome == Fail(ConnectionRefused) && connector.db == old(connector.db)
      ensures old(connector.attempts) !in connector.refused ==>
        Execute(old(connector.db), InsertTransfer(personId, categoryId, description, amount, date))
        == Executed(outcome, connector.db)
      ensures Store.Valid(old(connector.db)) ==> Store.Valid(connector.db)
    {
      outcome := connector.ExecuteAction(InsertTransfer(personId, categoryId, description, amount, date));
    }

    /** The DELETE of `ids[i]` in a RemovePersons run
        (Controller/Controller.cs:384), after those of `ids[..i]`, on its own
        connection: it fails when the connection is refused or the table is
        missing, changing nothing. */
    method DeletePersonAt(ghost db0: Database, ids: seq<int>, i: nat) returns (o: Outcome<SqlError>)
      requires i < |ids| && connector.db == DeletePersons(db0, ids[..i])
      modifies connector
      ensures connector.attempts == old(connector.attempts) + 1 && connector.state == old(connector.state)
      ensures o.Fail? <==> old(connector.attempts) in connector.refused || "person" !in old(connector.db).catalog.tables
      ensures o.Fail? ==>
        && o.error == (if old(connector.attempts) in connector.refused then ConnectionRefused else UndefinedTable)
        && connector.db == old(connector.db)
      ensures o.Pass? ==> connector.db == DeletePersons(db0, ids[..i + 1])
      ensures connector.db.catalog == old(connector.db).catalog
    {
      ghost var before := connector.db;
      o := connector.ExecuteAction(DeletePerson(ids[i]));
      DeleteOutcome(before, DeletePerson(ids[i]));
      DeletePersonsStep(db0, ids, i);
    }

    /** The DELETE of `ids[i]` in a RemoveTransfers run
        (Controller/Controller.cs:400), as DeletePersonAt. */
    method DeleteTransferAt(ghost db0: Database, ids: seq<int>, i: nat) returns (o: Outcome<SqlError>)
      requires i < |ids| && connector.db == DeleteTransfers(db0, ids[..i])
      modifies connector
      ensures connector.attempts == old(connector.attempts) + 1 && connector.state == old(connector.state)
      ensures o.Fail? <==> old(connector.attempts) in connector.refused || "transfer" !in old(connector.db).catalog.tables
      ensures o.Fail? ==>
        && o.error == (if old(connector.attempts) in connector.refused then ConnectionRefused else UndefinedTable)
        && connector.db == old(connector.db)
      ensures o.Pass? ==> connector.db == DeleteTransfers(db0, ids[..i + 1])
      ensures connector.db.catalog == old(connector.db).catalog
    {
      ghost var before := connector.db;
      o := connector.ExecuteAction(DeleteTransfer(ids[i]));
      DeleteOutcome(before, DeleteTransfer(ids[i]));
      DeleteTransfersStep(db0, ids, i);
    }

    /** RemovePersons (Controller/Controller.cs:376-386): one DELETE per id,
        each on its own connection; the first refused connection throws and
        ends the loop, leaving the earlier deletions in place. */
    method RemovePersons(personIds: seq<int>) returns (outcome: Outcome<SqlError>)
      modifies connector
      ensures var k := FirstRefused(connector.refused, old(connector.attempts), |personIds|);
        var done := if "person" in old(connector.db).catalog.tables then k else 0;
        && connector.db == DeletePersons(old(connector.db), personIds[..done])
        && (outcome.Pass? <==> done == |personIds|)
        && connector.attempts == old(connector.attempts) + (if done == |personIds| then done else done + 1)
      ensures outcome.Fail? ==>
        outcome.error == (if "person" in old(connector.db).catalog.tables || old(connector.attempts) in connector.refused
                          then ConnectionRefused else UndefinedTable)
      ensures connector.state == old(connector.state)
    {
      ghost var start := connector.attempts;
      ghost var present := "person" in connector.db.catalog.tables;
      for i := 0 to |personIds|
        invariant connector.attempts == start + i && connector.state == old(connector.state)
        invariant forall a :: start <= a < start + i ==> a !in connector.refused
        invariant connector.db == DeletePersons(old(connector.db), personIds[..i])
        invariant present <==> "person" in connector.db.catalog.tables
        invariant !present ==> i == 0
      {
        var o := DeletePersonAt(old(connector.db), personIds, i);
        if o.Fail? {
          if present {
            FirstRefusedUnique(connector.refused, start, |personIds|, i);
          }
          assert (if present then FirstRefused(connector.refused, start, |personIds|) else 0) == i;
          return o;
        }
      }
      FirstRefusedUnique(connector.refused, start, |personIds|, |personIds|);
      assert personIds[..|personIds|] == personIds;
      outcome := Pass;
    }

    /** RemoveTransfers (Controller/Controller.cs:392-402): as RemovePersons,
        for transfer ids. */
    method RemoveTransfers(transferIds: seq<int>) returns (outcome: Outcome<SqlError>)
      modifies connector
      ensures var k := FirstRefused(connector.refused, old(connector.attempts), |transferIds|);
        var done := if "transfer" in old(connector.db).catalog.tables then k else 0;
        && connector.db == DeleteTransfers(old(connector.db), transferIds[..done])
        && (outcome.Pass? <==> done == |transferIds|)
        && connector.attempts == old(connector.attempts) + (if done == |transferIds| then done else done + 1)
      ensures outcome.Fail? ==>
        outcome.error == (if "transfer" in old(connector.db).catalog.tables || old(connector.attempts) in connector.refused
                          then ConnectionRefused else UndefinedTable)
      ensures connector.state == old(connector.state)
    {
      ghost var start := connector.attempts;
      ghost var present := "transfer" in connector.db.catalog.tables;
      for i := 0 to |transferIds|
        invariant connector.attempts == start + i && connector.state == old(connector.state)
        invariant forall a :: start <= a < start + i ==> a !in connector.refused
        invariant connector.db == DeleteTransfers(old(connector.db), transferIds[..i])
        invariant present <==> "transfer" in connector.db.catalog.tables
        invariant !present ==> i == 0
      {
        var o := DeleteTransferAt(old(connector.db), transferIds, i);
        if o.Fail? {
          if present {
            FirstRefusedUnique(connector.refused, start, |transferIds|, i);
          }
          assert (if present then FirstRefused(connector.refused, start, |transferIds|) else 0) == i;
          return o;
        }
      }
      FirstRefusedUnique(connector.refused, start, |transferIds|, |transferIds|);
      assert transferIds[..|transferIds|] == transferIds;
      outcome := Pass;
    }

    /** RemoveCategory (Controller/Controller.cs:408-415). */
    method RemoveCategory(categoryName: string) returns (outcome: Outcome<SqlError>)
      modifies connector
      ensures connector.attempts == old(connector.attempts) + 1 && connector.state == old(connector.state)
      ensures old(connector.attempts) in connector.refused ==>
        outcome == Fail(ConnectionRefused) && connector.db == old(connector.db)
      ensures old(connector.attempts) !in connector.refused ==>
        Execute(old(connector.db), DeleteCategory(categoryName)) == Executed(outcome, connector.db)
      ensures Store.Valid(old(connector.db)) ==> Store.Valid(connector.db)
    {
      outcome := connector.ExecuteAction(DeleteCategory(categoryName));
    }

    /** CreateTables (Controller/Controller.cs:422-425): the connector's. */
    method CreateTables() returns (outcome: Outcome<SqlError>)
      modifies connector
      ensures connector.attempts == old(connector.attempts) + 1
      ensures outcome.Fail? <==> old(connector.attempts) in connector.refused
      ensures outcome.Fail? ==>
        outcome.error == ConnectionRefused && connector.db == old(connector.db) && connector.state == old(connector.state)
      ensures outcome.Pass? ==> connector.db == Recreated(old(connector.db)) && connector.state == Correct
    {
      outcome := connector.CreateTables();
    }
  }
}
