# FinanceManagerWpf data-access layer in Dafny

FinanceManagerWpf is a desktop application that keeps track of money
transfers. Each transfer belongs to a person and a category. The data lives
in PostgreSQL. Its data-access layer has two classes:

- **Connector** decides whether the database is `Missing`, `Incorrect` or
  `Correct`. It probes one connection, then checks the catalog: three tables
  and ten columns with a fixed data type, identity flag and nullability. It
  can drop and recreate the schema, including the two seeded categories. It
  runs one statement or one query per connection and copies query results
  into a `DataTable`.
- **Controller** is the record service. It lists persons (with per-person
  totals), transfers and categories, and keeps the last listing of each. It
  runs seven filtered transfer queries and a per-category total report. It
  adds persons, categories and transfers. It removes persons and transfers
  one id at a time and categories by name.

The model treats the PostgreSQL instance as an abstract value
(`Store.Database`). That value holds the catalog, the rows of `person`,
`category` and `transfer` in scan order, and the next value of each
identity sequence. Each statement is a function on that value
(`Store.Execute`). Each query is a function from it to a result set
(`Queries.Eval`). `Connector` and `Controller` are classes whose methods
update the database, the connector's state and the controller's kept
listings in place.

A connection can be refused, whatever the program does. This is an input:
the set `refused` of connection attempts that fail. The connector counts
its attempts. A refused connection becomes the `ConnectionRefused`
failure. A statement the engine rejects becomes the matching `SqlError`.
In the C# code both are exceptions that reach the caller. A statement or
query that names a table the catalog does not list fails with
`UndefinedTable` (SQLSTATE 42P01). This can happen on an `Incorrect`
database, because the controller does not look at the connector's state. A
value longer than its `VARCHAR(n)` column is rejected (`ValueTooLong`),
unless every character past the n-th is a space. In that case PostgreSQL
stores the value cut to n characters (`Store.Coerce`).

Modules, in dependency order:

- `Wrappers`: `Option`, `Result` and `Outcome`.
- `Sequences`: order-preserving filtering (`Keep`), SQL `SUM` with its NULL
  rule, grouping by distinct keys, and the lemma that group sums add up to
  the total.
- `Dates`: the `DATE` type, its order, and `TO_CHAR(d, 'DD-MM-YYYY')`.
- `Schema`: the DDL of `CreateTables`, the catalog it produces, and
  `CheckColumn`/`CheckDatabase` as predicates on a catalog.
- `Store`: the database, the statements and their effects, and the
  integrity the constraints guarantee.
- `Queries`: the SELECT statements.
- `SchemaConnector`: `DatabaseState` and the classes `DataTable` and `Connector`.
- `RecordService`: the class `Controller`.

A few behaviours of the code that a reader might not expect; the model
follows the code in each:

- A database that accepts connections but has none of the tables is
  `Incorrect`, not `Missing`. `Missing` means that the probe connection
  was refused (`SchemaConnector.Connector.constructor`, `Schema.EmptyCatalogFailsCheck`).
- There are seven filtered transfer queries, one for each non-empty subset
  of {person, category, period}. The empty subset is the plain transfer
  listing (`Queries.UnfilteredIsListing`).
- The filters compare the joined row's `p.person_id` and `c.category_id`.
  A filter on a join that finds no row is NULL, so it drops the transfer
  (`Queries.Matches`). Every other query keeps such a transfer: a
  transfer whose person row is missing appears with a NULL name in the
  listing and in the period-only and category-only queries
  (`Queries.UnjoinedPersonShowsNull`). On a database
  that respects its foreign keys, every join finds its row
  (`Queries.MatchingIff`).

## Model

| member | source | states |
|---|---|---|
| SchemaConnector.Connector.constructor | Connector/Connector.cs:43-78 | the state is `Missing` exactly when the probe connection is refused; otherwise `Incorrect` exactly when the catalog fails CheckDatabase, and `Correct` exactly when it passes; the database is the one given |
| SchemaConnector.Connector.Open | Connector/Connector.cs:61 | `connection.Open()` (also lines 89, 233 and 270): one attempt, granted iff the attempt is not in `refused`; the database and the state are unchanged |
| SchemaConnector.Connector.CheckDatabase | Connector/Connector.cs:134-166 | loops over the three required tables, returning false at the first missing one, then evaluates the ten column checks; the result equals `SchemaMatches` of the catalog |
| Schema.CheckColumn | Connector/Connector.cs:178-201 | true iff the (table, column) pair has a catalog row whose data type, is_identity and is_nullable equal the expected type and the YES/NO rendering of the two flags; false when there is no row |
| Schema.MissingTableFailsCheck | Connector/Connector.cs:141-151 | a catalog missing any of `person`, `category`, `transfer` fails the check, whatever its columns |
| Schema.EmptyCatalogFailsCheck | Connector/Connector.cs:141-151 | a reachable database with no tables fails the check |
| Schema.ColumnsMatchIffAgrees | Connector/Connector.cs:154-163 | the ten column checks hold iff the catalog agrees with the defined column triples on every one of the ten keys |
| Schema.SchemaMatchesIffAgreesWithDefinition | Connector/Connector.cs:100-118 | the check passes iff the three tables exist and every column agrees with the catalog that the DDL of CreateTables produces |
| Schema.ColumnMismatchFailsCheck | Connector/Connector.cs:154-164 | one column that is missing, or differs from the defined triple in any attribute, fails the whole check |
| Schema.InfoOf | Connector/Connector.cs:154-163 | the catalog row PostgreSQL derives from a column definition: is_identity is YES iff the column is an identity column; is_nullable is NO iff it is NOT NULL or a primary key; data_type is `integer` iff the column is INT, and `character varying` for every VARCHAR length (`Schema.InformationSchemaType`) |
| Schema.DefinedCatalog | Connector/Connector.cs:100-118 | the DDL yields exactly the three tables and the ten column triples, for example `transfer.person_id` is integer, not identity, not nullable |
| Schema.DeclaredConstraints | Connector/Connector.cs:100-118 | the primary-key and UNIQUE columns are the ids and names of `person` and `category` and the id of `transfer`; the only REFERENCES clauses are `transfer.person_id` to `person` and `transfer.category_id` to `category` |
| Schema.DefinedSchemaPassesCheck | Connector/Connector.cs:100-118 | the schema CreateTables builds passes CheckDatabase, which justifies setting the state to `Correct` unconditionally |
| Store.RecreatedDatabase | Connector/Connector.cs:92-127 | after DROP/CREATE SCHEMA, the three CREATE TABLEs and the two seed inserts: the catalog is the defined one and passes the check, `person` and `transfer` are empty, `category` holds exactly the two seeded rows with ids 1 and 2, and the database is valid |
| Store.EmptySchemaIsEmpty | Connector/Connector.cs:92-118 | the recreated schema has the defined catalog, no rows and identity sequences starting at 1 |
| Store.SeedCategories | Connector/Connector.cs:122-125 | both seed inserts into the empty category table succeed, with ids 1 and 2, and leave a valid database |
| SchemaConnector.Connector.CreateTables | Connector/Connector.cs:85-128 | a refused connection fails with nothing changed; otherwise the database becomes `Recreated` of the old one, the state becomes `Correct`, and the new catalog passes the check |
| SchemaConnector.Connector.ExecuteAction | Connector/Connector.cs:211-237 | one connection attempt; refused: fails with the database unchanged; otherwise the outcome and the new database are those of `Execute`, which fails with UndefinedTable and changes nothing when the statement's table is missing; a valid database stays valid |
| SchemaConnector.Connector.ExecuteTable | Connector/Connector.cs:265-298 | one connection attempt; fails iff the connection is refused (ConnectionRefused) or a table the query reads is missing (UndefinedTable); otherwise returns a fresh, well-formed table whose columns and rows are exactly the query's result; the database is unchanged either way |
| SchemaConnector.Connector.Load | Connector/Connector.cs:281-293 | one column per reader field, named and ordered as the reader reports, then one row per record in read order |
| SchemaConnector.Connector.ReadRow | Connector/Connector.cs:287-291 | the row's cell i is the record's field i, for every i |
| SchemaConnector.DataTable.AddColumn | Connector/Connector.cs:283 | appends the column name; every existing row gains a NULL cell; rows stay one cell per column |
| SchemaConnector.DataTable.AddRow | Connector/Connector.cs:292 | appends the row, columns unchanged; rows stay one cell per column |
| Store.ExecutePreservesValid | Connector/Connector.cs:100-118 | every statement keeps unique ids and names, ids below their sequence, VARCHAR lengths and foreign keys: inserts that would break them are refused, and deletes cascade |
| Store.Execute | Controller/Controller.cs:322-414 | the six INSERT and DELETE statements under the constraints declared at Connector/Connector.cs:100-118: the catalog never changes; a statement on a missing table fails with UndefinedTable and changes nothing; a failed statement leaves every row as it was (the Insert*Result and Delete* lemmas below say what each statement does) |
| Store.Recreated | Connector/Connector.cs:92-125 | the database after DROP SCHEMA, CREATE SCHEMA, the three CREATE TABLEs and the two seed inserts; RecreatedDatabase states what it holds |
| Store.StatementTable | Controller/Controller.cs:330-414 | the table a statement names is one of the three the check requires |
| Store.Coerce | Connector/Connector.cs:100-118 | assignment to VARCHAR(n): a value of at most n characters is kept; a longer one is rejected iff some character past the n-th is not a space, and otherwise stored as its first n characters, only spaces being cut off |
| Store.CheckedSchemaHasStatementTables | Connector/Connector.cs:141-151 | on a catalog that passes the check no statement fails with UndefinedTable |
| Store.InsertPersonResult | Controller/Controller.cs:323-331 | AddPerson's insert succeeds iff the `person` table exists, the name fits VARCHAR(50) after coercion and the coerced name is not taken; it then appends exactly one row, with the coerced name and an id no person has; a failed insert leaves every row as it was and fails with UndefinedTable, ValueTooLong or UniqueViolation, in that order of precedence |
| Store.InsertCategoryResult | Controller/Controller.cs:337-345 | the same for categories, with VARCHAR(50) and a unique coerced name |
| Store.InsertTransferResult | Controller/Controller.cs:355-368 | AddTransfer's insert succeeds iff the `transfer` table exists, the description fits VARCHAR(255) after coercion and the person and category ids exist; it then appends exactly one row with the coerced description and a fresh id; otherwise it fails with UndefinedTable, ValueTooLong or ForeignKeyViolation and every row unchanged |
| Store.DeleteOutcome | Controller/Controller.cs:384-414 | a DELETE passes iff its table exists, and otherwise fails with UndefinedTable; the catalog is unchanged |
| Store.DeletePersonCascades | Connector/Connector.cs:114 | deleting a person by id fails only when the `person` table is missing, and then changes nothing; otherwise it removes that person and exactly the transfers referencing it; categories and the catalog are unchanged |
| Store.DeleteTransferRemovesOnly | Controller/Controller.cs:400 | deleting a transfer by id fails only when the `transfer` table is missing, changing nothing; otherwise it removes exactly that transfer |
| Store.DeleteCategoryCascades | Connector/Connector.cs:115 | deleting a category by name fails only when the `category` table is missing, changing nothing; otherwise it removes the category of that name and exactly its transfers; persons are unchanged |
| Store.DeleteUnknownCategoryIsNoOp | Controller/Controller.cs:408-415 | deleting a category name that no row has changes nothing, and passes iff the `category` table exists |
| Store.DeletePersonsCascades | Controller/Controller.cs:376-386 | the successive person deletes remove exactly the listed persons and all their transfers, or change nothing when the `person` table is missing; the catalog and the categories are unchanged and the database stays valid |
| Store.DeleteTransfersRemovesOnly | Controller/Controller.cs:392-402 | the successive transfer deletes remove exactly the listed transfers, or change nothing when the `transfer` table is missing; the database stays valid |
| Queries.FindPerson | Controller/Controller.cs:84-85 | the LEFT JOIN on person: a row with the wanted id, and None exactly when no person has that id |
| Queries.FindCategory | Controller/Controller.cs:174-175 | the LEFT JOIN on category: a row with the wanted id, and None exactly when no category has that id |
| Queries.Matches | Controller/Controller.cs:115-294 | the WHERE clause of a filtered query: a selected transfer has the filter's person id and category id; a transfer whose person or category join finds nothing is rejected by a filter on that join; the empty filter selects everything |
| Queries.Matching | Controller/Controller.cs:115-294 | the filtered query selects a transfer iff it is in the table and the WHERE clause holds of it |
| Queries.UnjoinedPersonShowsNull | Controller/Controller.cs:141-150 | a transfer whose person row is missing is selected by the period-only query whenever its date is in the period, and its row shows a NULL name |
| Queries.Eval | Controller/Controller.cs:56-314 | every result set has one cell per column in every row |
| Queries.QueryTables | Controller/Controller.cs:56-314 | the tables a query reads are among the three required ones, and always include `transfer` or `category` |
| Queries.CheckedSchemaHasQueryTables | Connector/Connector.cs:141-151 | on a catalog that passes the check every table a query reads exists |
| Queries.MatchingIff | Controller/Controller.cs:124 | on a valid database a filtered query returns a transfer iff it is in the table and matches the person id and category id exactly and lies in the period, both bounds included (lines 150, 176) |
| Queries.CombinedIsIntersection | Controller/Controller.cs:204 | a combined query returns exactly the transfers that each of its single-condition queries returns (lines 204, 232, 262, 294) |
| Queries.CombinedFilterComposes | Controller/Controller.cs:294 | filtering one query's rows by another filter gives the combined query's rows, in the same order |
| Queries.UnfilteredIsListing | Controller/Controller.cs:77-85 | the filtered query with no condition is the transfer listing |
| Queries.EmptyPeriodSelectsNothing | Controller/Controller.cs:150 | a period that starts after it ends selects no transfer |
| Queries.TransferListing | Controller/Controller.cs:77-85 | one row per transfer in table order: id, the name of its person, description, amount and the date as DD-MM-YYYY |
| Dates.Format | Controller/Controller.cs:82 | the date is ten characters: two digits, a dash, two digits, a dash, four digits |
| Dates.FormatRoundTrip | Controller/Controller.cs:82 | reading a rendered date back gives the date, so the rendering is zero-padded day, month, year |
| Dates.FormatInjective | Controller/Controller.cs:82 | distinct dates are rendered differently |
| Queries.PersonListing | Controller/Controller.cs:56-66 | one row per person in table order: id, name and the sum of that person's transfer amounts, which is 0 for a person without transfers |
| Queries.PersonTotalsPartition | Controller/Controller.cs:56-66 | on a valid database the per-person totals add up to the sum of all transfer amounts |
| Queries.CategoryTotalsListing | Controller/Controller.cs:301-314 | one row per group, in order of first appearance: the category name and the sum of that group's amounts |
| Queries.CategoryGroupsAreUsedCategories | Controller/Controller.cs:309-314 | on a valid database the groups are exactly the names of the categories that have at least one transfer, each once, and none is NULL |
| Queries.CategoryTotalsPartition | Controller/Controller.cs:301-314 | the per-category totals add up to the sum of all transfer amounts |
| Queries.DeletedPersonHasNoTransfers | Controller/Controller.cs:376-386 | after a person is deleted successfully, that person's transfer query returns no rows |
| Queries.DeletedCategoryHasNoTransfers | Controller/Controller.cs:408-415 | after a category is deleted successfully by name, that category's transfer query returns no rows |
| Sequences.GroupSumIsSumFor | Controller/Controller.cs:60-62 | `CASE WHEN SUM(..) IS NULL THEN 0 ELSE SUM(..) END` over a group is the plain sum of its amounts, 0 when the group is empty |
| Sequences.GroupSumsPartitionTotal | Controller/Controller.cs:66 | when every pair's key occurs exactly once among the group keys, the group sums add up to the grand total |
| RecordService.Controller.constructor | Controller/Controller.cs:43-46 | a fresh connector with the constructor's state rule, and three empty listings |
| RecordService.Controller.GetPersons | Controller/Controller.cs:54-69 | fails iff the connection is refused or `person` or `transfer` is missing, with ConnectionRefused or UndefinedTable; on success, returns a fresh table equal to the person listing and keeps it as `persons`; on failure `persons` is unchanged; the other listings and the database are unchanged |
| RecordService.Controller.GetTransfers | Controller/Controller.cs:75-88 | as GetPersons, for the transfer listing and `transfers`, which reads `transfer` and `person` |
| RecordService.Controller.GetCategories | Controller/Controller.cs:94-99 | as GetPersons, for the category table and `categories`, which reads `category` only |
| RecordService.Controller.GetTransfersByPerson | Controller/Controller.cs:108-125 | returns the person-filtered query's result; fails iff the connection is refused or a table it reads is missing, with ConnectionRefused or UndefinedTable; the database, the connector state and the listings are untouched |
| RecordService.Controller.GetTransfersPerPeriod | Controller/Controller.cs:133-151 | returns the period-filtered query's result; fails iff the connection is refused or a table it reads is missing, with ConnectionRefused or UndefinedTable; the database, the connector state and the listings are untouched |
| RecordService.Controller.GetTransfersPerCategory | Controller/Controller.cs:158-177 | returns the category-filtered query's result; fails iff the connection is refused or a table it reads is missing, with ConnectionRefused or UndefinedTable; the database, the connector state and the listings are untouched |
| RecordService.Controller.GetTransfersPerPersonAndCategory | Controller/Controller.cs:185-205 | returns the person and category query's result; fails iff the connection is refused or a table it reads is missing, with ConnectionRefused or UndefinedTable; the database, the connector state and the listings are untouched |
| RecordService.Controller.GetTransferByPersonPerPeriod | Controller/Controller.cs:214-233 | returns the person and period query's result; fails iff the connection is refused or a table it reads is missing, with ConnectionRefused or UndefinedTable; the database, the connector state and the listings are untouched |
| RecordService.Controller.GetTransfersPerCategoryAndPeriod | Controller/Controller.cs:242-263 | returns the category and period query's result; fails iff the connection is refused or a table it reads is missing, with ConnectionRefused or UndefinedTable; the database, the connector state and the listings are untouched |
| RecordService.Controller.GetTransfersPerCategoryAndPeriodAndPerson | Controller/Controller.cs:273-295 | returns the three-condition query's result; fails iff the connection is refused or a table it reads is missing, with ConnectionRefused or UndefinedTable; the database, the connector state and the listings are untouched |
| RecordService.Controller.GetTransfersGroupByCategory | Controller/Controller.cs:301-315 | returns the per-category totals; fails iff the connection is refused or a table it reads is missing, with ConnectionRefused or UndefinedTable; the database, the connector state and the listings are untouched |
| RecordService.Controller.AddPerson | Controller/Controller.cs:323-331 | one connection; refused: database unchanged; otherwise the effect of the INSERT; validity is kept |
| RecordService.Controller.AddCategory | Controller/Controller.cs:337-345 | as AddPerson, for a category |
| RecordService.Controller.AddTransfer | Controller/Controller.cs:355-368 | as AddPerson, for a transfer |
| RecordService.Controller.DeletePersonAt | Controller/Controller.cs:384 | one DELETE of a RemovePersons run: it fails iff its connection is refused or `person` is missing, changing nothing; otherwise the database is the successive deletes of the ids up to and including this one |
| RecordService.Controller.DeleteTransferAt | Controller/Controller.cs:400 | as DeletePersonAt, for one DELETE of a RemoveTransfers run |
| RecordService.Controller.RemovePersons | Controller/Controller.cs:376-386 | one DELETE per id in order, each on its own connection; the first failure ends the loop: a refused connection, or a missing `person` table, which fails the first DELETE with UndefinedTable; the database is the old one with the ids before that point deleted, and the outcome is Pass iff no DELETE failed |
| RecordService.Controller.RemoveTransfers | Controller/Controller.cs:392-402 | as RemovePersons, for transfer ids |
| RecordService.Controller.RemoveCategory | Controller/Controller.cs:408-415 | one connection; refused: database unchanged; otherwise the effect of the DELETE by name |
| RecordService.Controller.CreateTables | Controller/Controller.cs:422-425 | the connector's CreateTables |
| RecordService.FirstRefused | Controller/Controller.cs:378-385 | the number of statements of a run that get a connection: every attempt before it succeeds, and the attempt at it, if any, is refused |

## Left out

- SchemaConnector.Connector.ExecuteTable, SchemaConnector.Connector.ExecuteAction,
  RecordService.Controller.RemovePersons, RecordService.Controller.RemoveTransfers
  and the listings the Controller keeps: `Connector.db` is the whole server
  state, and only this connector's own statements change it. Writes by other
  clients of the same server between two calls, or between the statements of
  one RemovePersons or RemoveTransfers run, are not modelled. Isolation
  between clients is left to the engine.

- Connection strings, Npgsql connections, commands, readers and parameter
  binding are not modelled. A connection is an attempt that the environment
  grants or refuses.
- SchemaConnector.Connector.CheckDatabase: its own connection
  (Connector/Connector.cs:136-138) is modelled as always granted. It takes
  no connection attempt, so a refusal between the probe and the check is
  not modelled.
- SchemaConnector.Connector.CreateTables: only a refused connection fails
  it, before any statement runs. A failure midway through the statements,
  which would leave the schema half built, is not modelled.
- The engine is modelled as enforcing the constraints the CREATE TABLE
  statements declare. CheckDatabase does not look at UNIQUE, REFERENCES,
  ON DELETE CASCADE or VARCHAR lengths. So a database it accepts but that
  was created with other constraints is outside the model.
- Only a missing table is checked when a statement or query runs. A table
  that exists with other columns than the DDL defines (undefined_column or
  a type mismatch on an `Incorrect` database) is not modelled: statements
  and queries then behave as on the defined columns.
- Catalog rows are keyed by table and column name only. Tables of the same
  name in other schemas, which `information_schema` also lists, are not
  modelled.
- Amounts are exact reals. Double-precision rounding of `FLOAT` values and
  sums is not modelled.
- Dates are calendar days of years 1 to 9999. The time of day carried by a
  `DateTime` parameter, and the wall clock, are not modelled.
- Row order is table order (insertion order, with deletions kept in
  order). Groups appear in order of first appearance. PostgreSQL promises
  neither without ORDER BY.
- Identity values are unbounded. The overflow of the 32-bit `INT`
  sequences is not modelled.
- A unique or foreign-key violation advances the identity sequence, as
  `nextval` is drawn before the check. An over-long VARCHAR is rejected
  before that, leaving the sequence as it was.
- Result cells are typed values. In the C# `DataTable`, columns added by
  name are string-typed, which the application relies on when it parses
  ids back from cells.
- The SQL text itself is not parsed. Each statement and query is a
  constructor of `Store.Statement` or `Queries.Query`.
- The WPF windows, the report-type dispatch, the two-row inter-person
  transfer with its compensating delete, JSON configuration and CSV export
  lie outside this layer and are not modelled.
