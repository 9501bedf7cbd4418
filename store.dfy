/** The PostgreSQL database behind the connector, as an abstract state: the
    catalog, the rows of `person`, `category` and `transfer` in scan order,
    and the next value of each table's identity sequence; and the effect of
    every statement the application sends (Connector/Connector.cs:92-125,
    Controller/Controller.cs:323-415), with the constraints the CREATE TABLE
    statements declare (Connector/Connector.cs:100-118). */
module Store {
  import opened Wrappers
  import opened Sequences
  import opened Dates
  import opened Schema

  datatype Person = Person(id: int, name: string)
  datatype Category = Category(id: int, name: string)
  datatype Transfer = Transfer(
    id: int,
    personId: int,
    categoryId: int,
    description: string,
    amount: real,
    doneAt: CalendarDate)

  datatype Database = Database(
    catalog: Catalog,
    persons: seq<Person>,
    categories: seq<Category>,
    transfers: seq<Transfer>,
    nextPersonId: int,
    nextCategoryId: int,
    nextTransferId: int)

  /** The failures a statement can end in: the connection is refused, or the
      engine rejects the statement because a table it names does not exist
      (SQLSTATE 42P01), for a UNIQUE/PRIMARY KEY clash, for a foreign key
      that references no row, or for a value longer than its VARCHAR. */
  datatype SqlError = ConnectionRefused | UndefinedTable | UniqueViolation | ForeignKeyViolation | ValueTooLong

  /** The statements the application executes through ExecuteAction. */
  datatype Statement =
    | InsertPerson(personName: string)
    | InsertCategory(categoryName: string)
    | InsertTransfer(personId: int, categoryId: int, description: string, amount: real, date: CalendarDate)
    | DeletePerson(personId: int)
    | DeleteTransfer(transferId: int)
    | DeleteCategory(categoryName: string)

  /** What a statement leaves behind: its outcome and the new database. */
  datatype Executed = Executed(outcome: Outcome<SqlError>, db: Database)

  /** The table a statement names in its INSERT INTO or DELETE FROM. */
  function StatementTable(s: Statement): (table: string)
    ensures table in RequiredTables
  {
    match s
    case InsertPerson(_) => "person"
    case DeletePerson(_) => "person"
    case InsertCategory(_) => "category"
    case DeleteCategory(_) => "category"
    case InsertTransfer(_, _, _, _, _) => "transfer"
    case DeleteTransfer(_) => "transfer"
  }

  /** The assignment of a string to a VARCHAR(n) column: a string of at
      most n characters is stored as it is; a longer one is stored cut to n
      characters when everything past the n-th is a space, and is rejected
      otherwise. */
  function Coerce(s: string, n: nat): (r: Option<string>)
    ensures |s| <= n ==> r == Some(s)
    ensures r.None? <==> |s| > n && exists i :: n <= i < |s| && s[i] != ' '
    ensures r.Some? ==> |r.value| <= n && r.value <= s && forall i :: |r.value| <= i < |s| ==> s[i] == ' '
    ensures |s| > n && r.Some? ==> r.value == s[..n]
  {
    if |s| <= n then Some(s)
    else if forall i :: n <= i < |s| ==> s[i] == ' ' then Some(s[..n])
    else None
  }

  /** The names of the two categories CreateTables seeds. */
  const InterPersonCategoryName := "Перевод между пользователями"
  const OneOffCategoryName := "Единовременная транзакция"

  function PersonIds(ps: seq<Person>): set<int> { set p | p in ps :: p.id }
  function PersonNames(ps: seq<Person>): set<string> { set p | p in ps :: p.name }
  function CategoryIds(cs: seq<Category>): set<int> { set c | c in cs :: c.id }
  function CategoryNames(cs: seq<Category>): set<string> { set c | c in cs :: c.name }
  function TransferIds(ts: seq<Transfer>): set<int> { set t | t in ts :: t.id }

  /** The integrity the three CREATE TABLE statements impose on the rows:
      primary keys unique and below their identity sequence, names unique,
      VARCHAR lengths respected, and every transfer referencing an existing
      person and category (the keys and references DeclaredConstraints reads
      off the table definitions). */
  predicate Valid(db: Database)
  {
    && db.nextPersonId > 0 && db.nextCategoryId > 0 && db.nextTransferId > 0
    && (forall i, j :: 0 <= i < j < |db.persons| ==>
          db.persons[i].id != db.persons[j].id && db.persons[i].name != db.persons[j].name)
    && (forall p :: p in db.persons ==> 0 < p.id < db.nextPersonId && |p.name| <= PersonNameLength)
    && (forall i, j :: 0 <= i < j < |db.categories| ==>
          db.categories[i].id != db.categories[j].id && db.categories[i].name != db.categories[j].name)
    && (forall c :: c in db.categories ==> 0 < c.id < db.nextCategoryId && |c.name| <= CategoryNameLength)
    && (forall i, j :: 0 <= i < j < |db.transfers| ==> db.transfers[i].id != db.transfers[j].id)
    && (forall t :: t in db.transfers ==>
          && 0 < t.id < db.nextTransferId
          && |t.description| <= DescriptionLength
          && t.personId in PersonIds(db.persons)
          && t.categoryId in CategoryIds(db.categories))
  }

  /** The effect of one statement. A statement naming a table the catalog
      does not list fails before anything else is looked at. An over-long
      VARCHAR value is rejected, or cut to size, while the statement is
      planned, before anything is evaluated. Otherwise an INSERT draws the
      next identity value first, so a UNIQUE or FOREIGN KEY violation
      detected afterwards leaves the rows as they were but the identity
      sequence advanced. A DELETE removes every matching row and, through
      `ON DELETE CASCADE`, every transfer that referenced one. */
  function Execute(db: Database, s: Statement): (e: Executed)
    ensures e.db.catalog == db.catalog
    ensures StatementTable(s) !in db.catalog.tables ==> e == Executed(Fail(UndefinedTable), db)
    ensures e.outcome.Fail? ==> SameRows(e.db, db)
  {
    if StatementTable(s) !in db.catalog.tables then Executed(Fail(UndefinedTable), db)
    else match s
    case InsertPerson(name) =>
      var coerced := Coerce(name, PersonNameLength);
      if coerced.None? then Executed(Fail(ValueTooLong), db)
      else
        var stored := coerced.value;
        var id := db.nextPersonId;
        if id in PersonIds(db.persons) || stored in PersonNames(db.persons) then
          Executed(Fail(UniqueViolation), db.(nextPersonId := id + 1))
        else
          Executed(Pass, db.(persons := db.persons + [Person(id, stored)], nextPersonId := id + 1))
    case InsertCategory(name) =>
      var coerced := Coerce(name, CategoryNameLength);
      if coerced.None? then Executed(Fail(ValueTooLong), db)
      else
        var stored := coerced.value;
        var id := db.nextCategoryId;
        if id in CategoryIds(db.categories) || stored in CategoryNames(db.categories) then
          Executed(Fail(UniqueViolation), db.(nextCategoryId := id + 1))
        else
          Executed(Pass, db.(categories := db.categories + [Category(id, stored)], nextCategoryId := id + 1))
    case InsertTransfer(personId, categoryId, description, amount, date) =>
      var coerced := Coerce(description, DescriptionLength);
      if coerced.None? then Executed(Fail(ValueTooLong), db)
      else
        var stored := coerced.value;
        var id := db.nextTransferId;
        if id in TransferIds(db.transfers) then
          Executed(Fail(UniqueViolation), db.(nextTransferId := id + 1))
        else if personId !in PersonIds(db.persons) || categoryId !in CategoryIds(db.categories) then
          Executed(Fail(ForeignKeyViolation), db.(nextTransferId := id + 1))
        else
          var t := Transfer(id, personId, categoryId, stored, amount, date);
          Executed(Pass, db.(transfers := db.transfers + [t], nextTransferId := id + 1))
    case DeletePerson(personId) =>
      Executed(Pass, db.(persons := Keep(db.persons, (p: Person) => p.id != personId),
                         transfers := Keep(db.transfers, (t: Transfer) => t.personId != personId)))
    case DeleteTransfer(transferId) =>
      Executed(Pass, db.(transfers := Keep(db.transfers, (t: Transfer) => t.id != transferId)))
    case DeleteCategory(name) =>
      var gone := set c | c in db.categories && c.name == name :: c.id;
      Executed(Pass, db.(categories := Keep(db.categories, (c: Category) => c.name != name),
                         transfers := Keep(db.transfers, (t: Transfer) => t.categoryId !in gone)))
  }

  /** The rows unchanged, whatever happened to the identity sequences. */
  predicate SameRows(a: Database, b: Database)
  {
    a.catalog == b.catalog && a.persons == b.persons && a.categories == b.categories && a.transfers == b.transfers
  }

  /** `DROP SCHEMA public CASCADE; CREATE SCHEMA public`: no tables, no rows. */
  function DropSchema(db: Database): Database
  {
    Database(Catalog({}, map[]), [], [], [], 1, 1, 1)
  }

  /** A CREATE TABLE statement: the table and its columns enter the catalog,
      with an empty table and a fresh identity sequence starting at 1. */
  function CreateTable(db: Database, t: TableDef): Database
  {
    var c := Catalog(db.catalog.tables + {t.name}, db.catalog.columns + ColumnsOf(t.name, t.columns));
    if t.name == "person" then db.(catalog := c, persons := [], nextPersonId := 1)
    else if t.name == "category" then db.(catalog := c, categories := [], nextCategoryId := 1)
    else if t.name == "transfer" then db.(catalog := c, transfers := [], nextTransferId := 1)
    else db.(catalog := c)
  }

  /** The database after the statements of CreateTables: drop and recreate
      the schema, create the three tables, insert the two seed categories. */
  function Recreated(db: Database): Database
  {
    var seeded := Execute(EmptySchema(db), InsertCategory(InterPersonCategoryName)).db;
    Execute(seeded, InsertCategory(OneOffCategoryName)).db
  }

  /** The database after the DROP SCHEMA, CREATE SCHEMA and three CREATE TABLE statements. */
  function EmptySchema(db: Database): Database
  {
    CreateTable(CreateTable(CreateTable(DropSchema(db), PersonTable), CategoryTable), TransferTable)
  }

  /** Successive `DELETE FROM person WHERE person_id = @person_id` for `ids`, in order. */
  function DeletePersons(db: Database, ids: seq<int>): Database
  {
    if ids == [] then db
    else Execute(DeletePersons(db, ids[..|ids| - 1]), DeletePerson(ids[|ids| - 1])).db
  }

  /** Successive `DELETE FROM transfer WHERE transfer_id = @transfer_id` for `ids`, in order. */
  function DeleteTransfers(db: Database, ids: seq<int>): Database
  {
    if ids == [] then db
    else Execute(DeleteTransfers(db, ids[..|ids| - 1]), DeleteTransfer(ids[|ids| - 1])).db
  }

  // ------------------------------------------------------------- lemmas

  /** CreateTables leaves the schema CheckDatabase accepts, exactly the two
      seeded categories (ids 1 and 2), no persons, no transfers, and a valid
      database. */
  lemma RecreatedDatabase(db: Database)
    ensures Recreated(db).catalog == CatalogOf(SchemaDefinition)
    ensures SchemaMatches(Recreated(db).catalog)
    ensures Recreated(db).persons == [] && Recreated(db).transfers == []
    ensures Recreated(db).categories == [Category(1, InterPersonCategoryName), Category(2, OneOffCategoryName)]
    ensures Valid(Recreated(db))
  {
    EmptySchemaIsEmpty(db);
    DefinedSchemaPassesCheck();
    assert RequiredTables[1] in EmptySchema(db).catalog.tables;
    SeedCategories(EmptySchema(db));
  }

  /** The recreated schema has the defined catalog, no rows and fresh sequences. */
  lemma EmptySchemaIsEmpty(db: Database)
    ensures var e := EmptySchema(db);
      && e.catalog == CatalogOf(SchemaDefinition)
      && e.persons == [] && e.categories == [] && e.transfers == []
      && e.nextPersonId == 1 && e.nextCategoryId == 1 && e.nextTransferId == 1
  {
    var e0 := DropSchema(db);
    var e1 := CreateTable(e0, PersonTable);
    var e2 := CreateTable(e1, CategoryTable);
    var e3 := CreateTable(e2, TransferTable);
    CatalogOfPerson();
    CatalogOfPersonCategory();
    assert map[] + ColumnsOf("person", PersonTable.columns) == ColumnsOf("person", PersonTable.columns);
    assert e1.catalog == CatalogOf([PersonTable]);
    assert e2.catalog == CatalogOf([PersonTable, CategoryTable]);
    assert SchemaDefinition[..2] == [PersonTable, CategoryTable];
    assert e3.catalog == CatalogOf(SchemaDefinition);
  }

  /** The two seed inserts into an empty category table both succeed, with ids 1 and 2. */
  lemma SeedCategories(e: Database)
    requires "category" in e.catalog.tables
    requires e.persons == [] && e.categories == [] && e.transfers == []
    requires e.nextPersonId == 1 && e.nextCategoryId == 1 && e.nextTransferId == 1
    ensures var e1 := Execute(e, InsertCategory(InterPersonCategoryName));
      var e2 := Execute(e1.db, InsertCategory(OneOffCategoryName));
      && e1.outcome == Pass && e2.outcome == Pass
      && e2.db == e.(categories := [Category(1, InterPersonCategoryName), Category(2, OneOffCategoryName)],
                     nextCategoryId := 3)
      && Valid(e2.db)
  {
    assert InterPersonCategoryName != OneOffCategoryName;
    assert |InterPersonCategoryName| <= CategoryNameLength && |OneOffCategoryName| <= CategoryNameLength;
  }

  /** Keep applied to the person table keeps the table's integrity. */
  lemma KeepPersonsUnique(ps: seq<Person>, keep: Person -> bool)
    requires forall i, j :: 0 <= i < j < |ps| ==> ps[i].id != ps[j].id && ps[i].name != ps[j].name
    ensures forall i, j :: 0 <= i < j < |Keep(ps, keep)| ==>
              Keep(ps, keep)[i].id != Keep(ps, keep)[j].id && Keep(ps, keep)[i].name != Keep(ps, keep)[j].name
  {
    KeepPairwise(ps, keep, (a: Person, b: Person) => a.id != b.id && a.name != b.name);
  }

  lemma KeepCategoriesUnique(cs: seq<Category>, keep: Category -> bool)
    requires forall i, j :: 0 <= i < j < |cs| ==> cs[i].id != cs[j].id && cs[i].name != cs[j].name
    ensures forall i, j :: 0 <= i < j < |Keep(cs, keep)| ==>
              Keep(cs, keep)[i].id != Keep(cs, keep)[j].id && Keep(cs, keep)[i].name != Keep(cs, keep)[j].name
  {
    KeepPairwise(cs, keep, (a: Category, b: Category) => a.id != b.id && a.name != b.name);
  }

  lemma KeepTransfersUnique(ts: seq<Transfer>, keep: Transfer -> bool)
    requires forall i, j :: 0 <= i < j < |ts| ==> ts[i].id != ts[j].id
    ensures forall i, j :: 0 <= i < j < |Keep(ts, keep)| ==> Keep(ts, keep)[i].id != Keep(ts, keep)[j].id
  {
    KeepPairwise(ts, keep, (a: Transfer, b: Transfer) => a.id != b.id);
  }

  lemma InsertPersonPreservesValid(db: Database, name: string)
    requires Valid(db)
    ensures Valid(Execute(db, InsertPerson(name)).db)
  {
    var r := Execute(db, InsertPerson(name)).db;
    if r.persons != db.persons {
      forall i, j | 0 <= i < j < |r.persons|
        ensures r.persons[i].id != r.persons[j].id && r.persons[i].name != r.persons[j].name
      {
        if j == |db.persons| {
          assert db.persons[i] in db.persons;
        }
      }
      assert PersonIds(db.persons) <= PersonIds(r.persons);
    }
  }

  lemma InsertCategoryPreservesValid(db: Database, name: string)
    requires Valid(db)
    ensures Valid(Execute(db, InsertCategory(name)).db)
  {
    var r := Execute(db, InsertCategory(name)).db;
    if r.categories != db.categories {
      forall i, j | 0 <= i < j < |r.categories|
        ensures r.categories[i].id != r.categories[j].id && r.categories[i].name != r.categories[j].name
      {
        if j == |db.categories| {
          assert db.categories[i] in db.categories;
        }
      }
      assert CategoryIds(db.categories) <= CategoryIds(r.categories);
    }
  }

  lemma InsertTransferPreservesValid(db: Database, personId: int, categoryId: int, description: string,
                                     amount: real, date: CalendarDate)
    requires Valid(db)
    ensures Valid(Execute(db, InsertTransfer(personId, categoryId, description, amount, date)).db)
  {
    var r := Execute(db, InsertTransfer(personId, categoryId, description, amount, date)).db;
    if r.transfers != db.transfers {
      forall i, j | 0 <= i < j < |r.transfers| ensures r.transfers[i].id != r.transfers[j].id {
        if j == |db.transfers| {
          assert db.transfers[i] in db.transfers;
        }
      }
    }
  }

  lemma DeletePersonPreservesValid(db: Database, personId: int)
    requires Valid(db)
    ensures Valid(Execute(db, DeletePerson(personId)).db)
  {
    var r := Execute(db, DeletePerson(personId)).db;
    KeepPersonsUnique(db.persons, (p: Person) => p.id != personId);
    KeepTransfersUnique(db.transfers, (t: Transfer) => t.personId != personId);
    forall t | t in r.transfers ensures t.personId in PersonIds(r.persons) {
      var p :| p in db.persons && p.id == t.personId;
      var i :| 0 <= i < |db.persons| && db.persons[i] == p;
    }
  }

  lemma DeleteTransferPreservesValid(db: Database, transferId: int)
    requires Valid(db)
    ensures Valid(Execute(db, DeleteTransfer(transferId)).db)
  {
    KeepTransfersUnique(db.transfers, (t: Transfer) => t.id != transferId);
  }

  lemma DeleteCategoryPreservesValid(db: Database, name: string)
    requires Valid(db)
    ensures Valid(Execute(db, DeleteCategory(name)).db)
  {
    var r := Execute(db, DeleteCategory(name)).db;
    var gone := set c | c in db.categories && c.name == name :: c.id;
    KeepCategoriesUnique(db.categories, (c: Category) => c.name != name);
    KeepTransfersUnique(db.transfers, (t: Transfer) => t.categoryId !in gone);
    forall t | t in r.transfers ensures t.categoryId in CategoryIds(r.categories) {
      var c :| c in db.categories && c.id == t.categoryId;
      var i :| 0 <= i < |db.categories| && db.categories[i] == c;
    }
  }

  /** Every statement keeps the database's integrity: inserts that would
      break a constraint are refused, and deletes cascade so that no
      transfer is left referencing a removed person or category. */
  lemma ExecutePreservesValid(db: Database, s: Statement)
    requires Valid(db)
    ensures Valid(Execute(db, s).db)
  {
    match s
    case InsertPerson(name) => InsertPersonPreservesValid(db, name);
    case InsertCategory(name) => InsertCategoryPreservesValid(db, name);
    case InsertTransfer(personId, categoryId, description, amount, date) =>
      InsertTransferPreservesValid(db, personId, categoryId, description, amount, date);
    case DeletePerson(personId) => DeletePersonPreservesValid(db, personId);
    case DeleteTransfer(transferId) => DeleteTransferPreservesValid(db, transferId);
    case DeleteCategory(name) => DeleteCategoryPreservesValid(db, name);
  }

  /** AddPerson inserts exactly one row, with an id no existing person has
      and the name as VARCHAR(50) stores it, unless the table is missing, the
      name does not fit VARCHAR(50) or the stored name is already taken; a
      refused insert leaves every row as it was. */
  lemma InsertPersonResult(db: Database, name: string)
    requires Valid(db)
    ensures var e := Execute(db, InsertPerson(name));
      var stored := Coerce(name, PersonNameLength);
      && (e.outcome == Pass <==>
            "person" in db.catalog.tables && stored.Some? && stored.value !in PersonNames(db.persons))
      && (e.outcome == Pass ==>
            && e.db.persons == db.persons + [Person(db.nextPersonId, stored.value)]
            && db.nextPersonId !in PersonIds(db.persons)
            && e.db.categories == db.categories && e.db.transfers == db.transfers)
      && (e.outcome.Fail? ==>
            && SameRows(e.db, db)
            && e.outcome.error == (if "person" !in db.catalog.tables then UndefinedTable
                                   else if stored.None? then ValueTooLong
                                   else UniqueViolation))
  {
  }

  /** AddCategory: as AddPerson, for the category table. */
  lemma InsertCategoryResult(db: Database, name: string)
    requires Valid(db)
    ensures var e := Execute(db, InsertCategory(name));
      var stored := Coerce(name, CategoryNameLength);
      && (e.outcome == Pass <==>
            "category" in db.catalog.tables && stored.Some? && stored.value !in CategoryNames(db.categories))
      && (e.outcome == Pass ==>
            && e.db.categories == db.categories + [Category(db.nextCategoryId, stored.value)]
            && db.nextCategoryId !in CategoryIds(db.categories)
            && e.db.persons == db.persons && e.db.transfers == db.transfers)
      && (e.outcome.Fail? ==>
            && SameRows(e.db, db)
            && e.outcome.error == (if "category" !in db.catalog.tables then UndefinedTable
                                   else if stored.None? then ValueTooLong
                                   else UniqueViolation))
  {
  }

  /** AddTransfer inserts exactly one row with a fresh id and the
      description as VARCHAR(255) stores it, unless the table is missing,
      the description does not fit VARCHAR(255) or the person or category id
      references no row; a refused insert leaves every row as it was. */
  lemma InsertTransferResult(db: Database, personId: int, categoryId: int, description: string,
                             amount: real, date: CalendarDate)
    requires Valid(db)
    ensures var e := Execute(db, InsertTransfer(personId, categoryId, description, amount, date));
      var stored := Coerce(description, DescriptionLength);
      && (e.outcome == Pass <==>
            && "transfer" in db.catalog.tables
            && stored.Some?
            && personId in PersonIds(db.persons)
            && categoryId in CategoryIds(db.categories))
      && (e.outcome == Pass ==>
            && e.db.transfers == db.transfers
                 + [Transfer(db.nextTransferId, personId, categoryId, stored.value, amount, date)]
            && db.nextTransferId !in TransferIds(db.transfers)
            && e.db.persons == db.persons && e.db.categories == db.categories)
      && (e.outcome.Fail? ==>
            && SameRows(e.db, db)
            && e.outcome.error == (if "transfer" !in db.catalog.tables then UndefinedTable
                                   else if stored.None? then ValueTooLong
                                   else ForeignKeyViolation))
  {
  }

  /** Deleting a person by id fails only when the person table is missing,
      changing nothing; otherwise it removes that person and, through the
      cascade, exactly the transfers that referenced the person; every other
      row stays. */
  lemma DeletePersonCascades(db: Database, personId: int)
    ensures var e := Execute(db, DeletePerson(personId));
      && e.db.catalog == db.catalog
      && (e.outcome == Pass <==> "person" in db.catalog.tables)
      && ("person" !in db.catalog.tables ==> e == Executed(Fail(UndefinedTable), db))
      && (forall p :: p in e.db.persons <==> p in db.persons && (e.outcome == Pass ==> p.id != personId))
      && (forall t :: t in e.db.transfers <==> t in db.transfers && (e.outcome == Pass ==> t.personId != personId))
      && e.db.categories == db.categories
  {
    var e := Execute(db, DeletePerson(personId));
    forall p | p in db.persons && p.id != personId ensures p in e.db.persons {
      var i :| 0 <= i < |db.persons| && db.persons[i] == p;
    }
    forall t | t in db.transfers && t.personId != personId ensures t in e.db.transfers {
      var i :| 0 <= i < |db.transfers| && db.transfers[i] == t;
    }
  }

  /** Deleting a transfer by id fails only when the transfer table is
      missing, changing nothing; otherwise it removes exactly that transfer. */
  lemma DeleteTransferRemovesOnly(db: Database, transferId: int)
    ensures var e := Execute(db, DeleteTransfer(transferId));
      && e.db.catalog == db.catalog
      && (e.outcome == Pass <==> "transfer" in db.catalog.tables)
      && ("transfer" !in db.catalog.tables ==> e == Executed(Fail(UndefinedTable), db))
      && (forall t :: t in e.db.transfers <==> t in db.transfers && (e.outcome == Pass ==> t.id != transferId))
      && e.db.persons == db.persons && e.db.categories == db.categories
  {
    var e := Execute(db, DeleteTransfer(transferId));
    forall t | t in db.transfers && t.id != transferId ensures t in e.db.transfers {
      var i :| 0 <= i < |db.transfers| && db.transfers[i] == t;
    }
  }

  /** Deleting a category by name fails only when the category table is
      missing, changing nothing; otherwise it removes the category of that
      name and, through the cascade, exactly the transfers in it. */
  lemma DeleteCategoryCascades(db: Database, name: string)
    ensures var e := Execute(db, DeleteCategory(name));
      && e.db.catalog == db.catalog
      && (e.outcome == Pass <==> "category" in db.catalog.tables)
      && ("category" !in db.catalog.tables ==> e == Executed(Fail(UndefinedTable), db))
      && (e.outcome == Pass ==>
            && (forall c :: c in e.db.categories <==> c in db.categories && c.name != name)
            && (forall t :: t in e.db.transfers <==>
                  t in db.transfers && forall c :: c in db.categories && c.id == t.categoryId ==> c.name != name))
      && e.db.persons == db.persons
  {
    var e := Execute(db, DeleteCategory(name));
    if "category" in db.catalog.tables {
      var gone := set c | c in db.categories && c.name == name :: c.id;
      forall c | c in db.categories && c.name != name ensures c in e.db.categories {
        var i :| 0 <= i < |db.categories| && db.categories[i] == c;
      }
      forall t | t in db.transfers
        ensures t in e.db.transfers <==> forall c :: c in db.categories && c.id == t.categoryId ==> c.name != name
      {
        var i :| 0 <= i < |db.transfers| && db.transfers[i] == t;
        if t.categoryId in gone {
          var c :| c in db.categories && c.name == name && c.id == t.categoryId;
        } else {
          assert t in e.db.transfers;
        }
      }
    }
  }

  /** Deleting a category name no row carries changes nothing, and fails
      only when the category table is missing. */
  lemma DeleteUnknownCategoryIsNoOp(db: Database, name: string)
    requires name !in CategoryNames(db.categories)
    ensures Execute(db, DeleteCategory(name)).db == db
    ensures Execute(db, DeleteCategory(name)).outcome == Pass <==> "category" in db.catalog.tables
  {
    var gone := set c | c in db.categories && c.name == name :: c.id;
    assert gone == {};
    KeepAll(db.categories, (c: Category) => c.name != name);
    KeepAll(db.transfers, (t: Transfer) => t.categoryId !in gone);
  }

  /** The successive deletes of a prefix one id longer: one more DELETE. */
  lemma DeletePersonsStep(db: Database, ids: seq<int>, i: nat)
    requires i < |ids|
    ensures DeletePersons(db, ids[..i + 1]) == Execute(DeletePersons(db, ids[..i]), DeletePerson(ids[i])).db
  {
    assert ids[..i + 1][..i] == ids[..i];
  }

  lemma DeleteTransfersStep(db: Database, ids: seq<int>, i: nat)
    requires i < |ids|
    ensures DeleteTransfers(db, ids[..i + 1]) == Execute(DeleteTransfers(db, ids[..i]), DeleteTransfer(ids[i])).db
  {
    assert ids[..i + 1][..i] == ids[..i];
  }

  /** A DELETE fails exactly when its table is missing, and never changes
      the catalog. */
  lemma DeleteOutcome(db: Database, s: Statement)
    requires s.DeletePerson? || s.DeleteTransfer? || s.DeleteCategory?
    ensures Execute(db, s).outcome == (if StatementTable(s) in db.catalog.tables then Pass else Fail(UndefinedTable))
    ensures Execute(db, s).db.catalog == db.catalog
  {
  }

  /** On a database CheckDatabase accepts, no statement fails for a
      missing table. */
  lemma CheckedSchemaHasStatementTables(db: Database, s: Statement)
    requires SchemaMatches(db.catalog)
    ensures Execute(db, s).outcome != Fail(UndefinedTable)
  {
    assert StatementTable(s) == RequiredTables[0] || StatementTable(s) == RequiredTables[1]
        || StatementTable(s) == RequiredTables[2];
  }

  /** Deleting persons one id at a time removes every listed person and, by
      the cascade, every transfer of theirs, and keeps the database valid. */
  lemma {:induction false} DeletePersonsCascades(db: Database, ids: seq<int>)
    requires Valid(db)
    ensures Valid(DeletePersons(db, ids))
    ensures DeletePersons(db, ids).catalog == db.catalog
    ensures "person" in db.catalog.tables ==>
      && (forall p :: p in DeletePersons(db, ids).persons <==> p in db.persons && p.id !in ids)
      && (forall t :: t in DeletePersons(db, ids).transfers <==> t in db.transfers && t.personId !in ids)
    ensures "person" !in db.catalog.tables ==> DeletePersons(db, ids) == db
    ensures DeletePersons(db, ids).categories == db.categories
  {
    if ids != [] {
      var front := ids[..|ids| - 1];
      DeletePersonsCascades(db, front);
      ExecutePreservesValid(DeletePersons(db, front), DeletePerson(ids[|ids| - 1]));
      DeletePersonCascades(DeletePersons(db, front), ids[|ids| - 1]);
      assert ids == front + [ids[|ids| - 1]];
    }
  }

  /** Deleting transfers one id at a time removes exactly the listed ones. */
  lemma {:induction false} DeleteTransfersRemovesOnly(db: Database, ids: seq<int>)
    requires Valid(db)
    ensures Valid(DeleteTransfers(db, ids))
    ensures DeleteTransfers(db, ids).catalog == db.catalog
    ensures "transfer" in db.catalog.tables ==>
      forall t :: t in DeleteTransfers(db, ids).transfers <==> t in db.transfers && t.id !in ids
    ensures "transfer" !in db.catalog.tables ==> DeleteTransfers(db, ids) == db
    ensures DeleteTransfers(db, ids).persons == db.persons
    ensures DeleteTransfers(db, ids).categories == db.categories
  {
    if ids != [] {
      var front := ids[..|ids| - 1];
      DeleteTransfersRemovesOnly(db, front);
      ExecutePreservesValid(DeleteTransfers(db, front), DeleteTransfer(ids[|ids| - 1]));
      DeleteTransferRemovesOnly(DeleteTransfers(db, front), ids[|ids| - 1]);
      assert ids == front + [ids[|ids| - 1]];
    }
  }
}
