/** The SELECT statements the controller sends, as functions from the
    database to the result set PostgreSQL returns (Controller/Controller.cs:56-315):
    the person listing with per-person totals, the transfer listing under
    any combination of person, category and period filters, the category
    table, and the per-category totals. */
module Queries {
  import opened Wrappers
  import opened Sequences
  import opened Dates
  import opened Schema
  import opened Store

  /** A cell of a result set; `Null` is SQL NULL. */
  datatype Value = IntValue(i: int) | RealValue(r: real) | TextValue(s: string) | Null

  /** The column names and the rows a query returns, in the order the reader
      delivers them. */
  datatype ResultSet = ResultSet(fields: seq<string>, rows: seq<seq<Value>>)

  predicate WellFormed(rs: ResultSet)
  {
    forall i :: 0 <= i < |rs.rows| ==> |rs.rows[i]| == |rs.fields|
  }

  /** The column aliases of the queries (Controller/Controller.cs:59-63, 78-82, 302-307);
      `SELECT * FROM category` names its columns after the table's. */
  const PersonFields: seq<string> := ["ID пользователя", "Имя пользователя", "Сумма всех переводов"]
  const TransferFields: seq<string> :=
    ["ID перевода", "Имя пользователя", "Описание перевода", "Сумма перевода", "Дата перевода"]
  const CategoryFields: seq<string> := ["category_id", "category_name"]
  const CategoryTotalFields: seq<string> := ["Категория перевода", "Сумма всех переводов по категории"]

  /** `t.done_at >= @dateFrom AND t.done_at <= @dateTo`. */
  datatype Period = Period(from: CalendarDate, to: CalendarDate)

  predicate InPeriod(d: CalendarDate, p: Period)
  {
    Le(p.from, d) && Le(d, p.to)
  }

  /** The WHERE conditions the seven filtered transfer queries combine:
      `p.person_id = @id`, `c.category_id = @id` and the period. */
  datatype Filter = Filter(person: Option<int>, category: Option<int>, period: Option<Period>)

  const NoFilter := Filter(None, None, None)

  /** `LEFT JOIN person p ON p.person_id = t.person_id`: the person row a
      transfer joins with, None when there is none. */
  function FindPerson(ps: seq<Person>, id: int): (r: Option<Person>)
    ensures r.Some? ==> r.value in ps && r.value.id == id
    ensures r.None? <==> id !in PersonIds(ps)
  {
    if ps == [] then None
    else if ps[0].id == id then Some(ps[0])
    else
      var r := FindPerson(ps[1..], id);
      assert PersonIds(ps) == {ps[0].id} + PersonIds(ps[1..]) by {
        assert ps == [ps[0]] + ps[1..];
      }
      r
  }

  /** `LEFT JOIN category c ON c.category_id = t.category_id`. */
  function FindCategory(cs: seq<Category>, id: int): (r: Option<Category>)
    ensures r.Some? ==> r.value in cs && r.value.id == id
    ensures r.None? <==> id !in CategoryIds(cs)
  {
    if cs == [] then None
    else if cs[0].id == id then Some(cs[0])
    else
      var r := FindCategory(cs[1..], id);
      assert CategoryIds(cs) == {cs[0].id} + CategoryIds(cs[1..]) by {
        assert cs == [cs[0]] + cs[1..];
      }
      r
  }

  /** The WHERE clause on the joined row. A comparison with a column of a
      row the LEFT JOIN did not find is NULL, which rejects the row. */
  predicate Matches(db: Database, t: Transfer, f: Filter)
    ensures Matches(db, t, f) && f.person.Some? ==> t.personId == f.person.value
    ensures Matches(db, t, f) && f.category.Some? ==> t.categoryId == f.category.value
    ensures f.person.Some? && t.personId !in PersonIds(db.persons) ==> !Matches(db, t, f)
    ensures f.category.Some? && t.categoryId !in CategoryIds(db.categories) ==> !Matches(db, t, f)
    ensures f.person.None? && f.category.None? && f.period.None? ==> Matches(db, t, f)
  {
    && (f.person.Some? ==>
          var p := FindPerson(db.persons, t.personId); p.Some? && p.value.id == f.person.value)
    && (f.category.Some? ==>
          var c := FindCategory(db.categories, t.categoryId); c.Some? && c.value.id == f.category.value)
    && (f.period.Some? ==> InPeriod(t.doneAt, f.period.value))
  }

  /** The transfers a filtered query returns, in table order. */
  function Matching(db: Database, f: Filter): (ts: seq<Transfer>)
    ensures forall t :: t in ts <==> t in db.transfers && Matches(db, t, f)
  {
    Keep(db.transfers, (t: Transfer) => Matches(db, t, f))
  }

  /** One row of a transfer listing: id, the person's name (NULL when the
      join finds no person), description, amount, and the date as
      `TO_CHAR(done_at, 'DD-MM-YYYY')`. */
  function TransferRow(db: Database, t: Transfer): (row: seq<Value>)
    ensures |row| == |TransferFields|
  {
    var name := match FindPerson(db.persons, t.personId)
      case Some(p) => TextValue(p.name)
      case None => Null;
    [IntValue(t.id), name, TextValue(t.description), RealValue(t.amount), TextValue(Format(t.doneAt))]
  }

  function TransferRows(db: Database, ts: seq<Transfer>): (rows: seq<seq<Value>>)
    ensures |rows| == |ts|
    ensures forall i :: 0 <= i < |ts| ==> rows[i] == TransferRow(db, ts[i])
  {
    if ts == [] then [] else [TransferRow(db, ts[0])] + TransferRows(db, ts[1..])
  }

  /** (person_id, amount) of every transfer: what `GROUP BY p.person_id` sums. */
  function PersonAmounts(ts: seq<Transfer>): (r: seq<(int, real)>)
    ensures |r| == |ts|
    ensures forall i :: 0 <= i < |ts| ==> r[i] == (ts[i].personId, ts[i].amount)
  {
    if ts == [] then [] else [(ts[0].personId, ts[0].amount)] + PersonAmounts(ts[1..])
  }

  /** One row of the person listing: id, name, and the NULL-to-zero sum of
      the amounts of the person's transfers. */
  function PersonRow(db: Database, p: Person): seq<Value>
  {
    [IntValue(p.id), TextValue(p.name), RealValue(GroupSum(PersonAmounts(db.transfers), p.id))]
  }

  function PersonRows(db: Database, ps: seq<Person>): (rows: seq<seq<Value>>)
    ensures |rows| == |ps|
    ensures forall i :: 0 <= i < |ps| ==> rows[i] == PersonRow(db, ps[i])
  {
    if ps == [] then [] else [PersonRow(db, ps[0])] + PersonRows(db, ps[1..])
  }

  function CategoryRows(cs: seq<Category>): (rows: seq<seq<Value>>)
    ensures |rows| == |cs|
    ensures forall i :: 0 <= i < |cs| ==> rows[i] == [IntValue(cs[i].id), TextValue(cs[i].name)]
  {
    if cs == [] then [] else [[IntValue(cs[0].id), TextValue(cs[0].name)]] + CategoryRows(cs[1..])
  }

  /** The category name a transfer joins with: the `GROUP BY c.category_name` key. */
  function CategoryKey(db: Database, t: Transfer): Option<string>
  {
    match FindCategory(db.categories, t.categoryId)
    case Some(c) => Some(c.name)
    case None => None
  }

  function CategoryAmounts(db: Database, ts: seq<Transfer>): (r: seq<(Option<string>, real)>)
    ensures |r| == |ts|
    ensures forall i :: 0 <= i < |ts| ==> r[i] == (CategoryKey(db, ts[i]), ts[i].amount)
  {
    if ts == [] then [] else [(CategoryKey(db, ts[0]), ts[0].amount)] + CategoryAmounts(db, ts[1..])
  }

  /** The groups of the per-category query, in order of first appearance. */
  function CategoryGroups(db: Database): seq<Option<string>>
  {
    Distinct(Firsts(CategoryAmounts(db, db.transfers)))
  }

  function KeyCell(k: Option<string>): Value
  {
    match k
    case Some(name) => TextValue(name)
    case None => Null
  }

  function CategoryTotalRows(pairs: seq<(Option<string>, real)>, keys: seq<Option<string>>): (rows: seq<seq<Value>>)
    ensures |rows| == |keys|
    ensures forall i :: 0 <= i < |keys| ==> rows[i] == [KeyCell(keys[i]), RealValue(GroupSum(pairs, keys[i]))]
  {
    if keys == [] then []
    else [[KeyCell(keys[0]), RealValue(GroupSum(pairs, keys[0]))]] + CategoryTotalRows(pairs, keys[1..])
  }

  /** The SELECT statements of the controller. */
  datatype Query =
    | AllPersons
    | AllTransfers
    | AllCategories
    | FilteredTransfers(filter: Filter)
    | TotalsByCategory

  /** The tables a query names in its FROM and JOIN clauses: the
      person-filtered and period-filtered queries join only `person`, the
      ones with a category condition also join `category`
      (Controller/Controller.cs:121-124, 171-176, 309-313). */
  function QueryTables(q: Query): (tables: set<string>)
    ensures "transfer" in tables || "category" in tables
    ensures forall t :: t in tables ==> t in RequiredTables
  {
    match q
    case AllPersons => {"person", "transfer"}
    case AllTransfers => {"transfer", "person"}
    case AllCategories => {"category"}
    case FilteredTransfers(f) => {"transfer", "person"} + (if f.category.Some? then {"category"} else {})
    case TotalsByCategory => {"transfer", "person", "category"}
  }

  /** What PostgreSQL returns for a query on a database whose catalog lists
      the query's tables; ExecuteTable fails first when it does not. */
  function Eval(db: Database, q: Query): (rs: ResultSet)
    ensures WellFormed(rs)
  {
    match q
    case AllPersons => ResultSet(PersonFields, PersonRows(db, db.persons))
    case AllTransfers => ResultSet(TransferFields, TransferRows(db, db.transfers))
    case AllCategories => ResultSet(CategoryFields, CategoryRows(db.categories))
    case FilteredTransfers(f) => ResultSet(TransferFields, TransferRows(db, Matching(db, f)))
    case TotalsByCategory =>
      ResultSet(CategoryTotalFields, CategoryTotalRows(CategoryAmounts(db, db.transfers), CategoryGroups(db)))
  }

  // ------------------------------------------------------------- lemmas

  /** On a valid database the LEFT JOINs always find their row, so each
      filter is a plain comparison on the transfer's own columns, both
      bounds of the period included. */
  lemma MatchingIff(db: Database, f: Filter, t: Transfer)
    requires Valid(db)
    ensures t in Matching(db, f) <==>
      && t in db.transfers
      && (f.person.Some? ==> t.personId == f.person.value)
      && (f.category.Some? ==> t.categoryId == f.category.value)
      && (f.period.Some? ==> Le(f.period.value.from, t.doneAt) && Le(t.doneAt, f.period.value.to))
  {
    var keep := (x: Transfer) => Matches(db, x, f);
    if t in db.transfers {
      var i :| 0 <= i < |db.transfers| && db.transfers[i] == t;
      assert t.personId in PersonIds(db.persons);
      assert t.categoryId in CategoryIds(db.categories);
    }
    if t in Matching(db, f) {
      var i :| 0 <= i < |Matching(db, f)| && Matching(db, f)[i] == t;
    }
  }

  /** A transfer whose person row is missing is kept, with a NULL name, by
      a query that does not filter on the person: the period-only query. */
  lemma UnjoinedPersonShowsNull(db: Database, f: Filter, t: Transfer)
    requires t in db.transfers && t.personId !in PersonIds(db.persons)
    requires f.person.None? && f.category.None?
    requires f.period.Some? ==> InPeriod(t.doneAt, f.period.value)
    ensures t in Matching(db, f)
    ensures TransferRow(db, t)[1] == Null
  {
  }

  /** The transfer listing is the query with no filter. */
  lemma UnfilteredIsListing(db: Database)
    ensures Matching(db, NoFilter) == db.transfers
    ensures Eval(db, FilteredTransfers(NoFilter)) == Eval(db, AllTransfers)
  {
    KeepAll(db.transfers, (t: Transfer) => Matches(db, t, NoFilter));
  }

  /** A combined filter is the composition of its parts: filtering the
      rows of one filter by the other gives the combined query's rows, in
      the same order. */
  lemma CombinedFilterComposes(db: Database, f: Filter, g: Filter)
    requires f.person.None? || g.person.None?
    requires f.category.None? || g.category.None?
    requires f.period.None? || g.period.None?
    ensures var both := Filter(
              if f.person.Some? then f.person else g.person,
              if f.category.Some? then f.category else g.category,
              if f.period.Some? then f.period else g.period);
      Keep(Matching(db, f), (t: Transfer) => Matches(db, t, g)) == Matching(db, both)
  {
    var both := Filter(
      if f.person.Some? then f.person else g.person,
      if f.category.Some? then f.category else g.category,
      if f.period.Some? then f.period else g.period);
    var p := (t: Transfer) => Matches(db, t, f);
    var q := (t: Transfer) => Matches(db, t, g);
    var pq := (t: Transfer) => Matches(db, t, both);
    forall t | t in db.transfers ensures pq(t) == (p(t) && q(t)) {
    }
    KeepKeep(db.transfers, p, q, pq);
  }

  /** A period whose start lies after its end selects nothing. */
  lemma EmptyPeriodSelectsNothing(db: Database, f: Filter)
    requires f.period.Some? && !Le(f.period.value.from, f.period.value.to)
    ensures Matching(db, f) == []
  {
    var p := f.period.value;
    forall t | t in db.transfers ensures !Matches(db, t, f) {
      if InPeriod(t.doneAt, p) {
        LeIsTotalOrder(p.from, t.doneAt, p.to);
      }
    }
    KeepNone(db.transfers, (t: Transfer) => Matches(db, t, f));
  }

  /** The person listing has one row per person, in table order, with the
      person's id and name and the sum of the amounts of the person's
      transfers, which is 0 for a person without transfers. */
  lemma PersonListing(db: Database, i: int)
    requires 0 <= i < |db.persons|
    ensures |Eval(db, AllPersons).rows| == |db.persons|
    ensures var p := db.persons[i];
      Eval(db, AllPersons).rows[i] ==
        [IntValue(p.id), TextValue(p.name), RealValue(SumFor(PersonAmounts(db.transfers), p.id))]
    ensures (forall t :: t in db.transfers ==> t.personId != db.persons[i].id) ==>
      Eval(db, AllPersons).rows[i][2] == RealValue(0.0)
  {
    var p := db.persons[i];
    GroupSumIsSumFor(PersonAmounts(db.transfers), p.id);
    if forall t :: t in db.transfers ==> t.personId != p.id {
      NoTransfersSumZero(db.transfers, p.id);
    }
  }

  lemma {:induction false} NoTransfersSumZero(ts: seq<Transfer>, id: int)
    requires forall t :: t in ts ==> t.personId != id
    ensures SumFor(PersonAmounts(ts), id) == 0.0
  {
    if ts != [] {
      assert PersonAmounts(ts)[1..] == PersonAmounts(ts[1..]);
      NoTransfersSumZero(ts[1..], id);
    }
  }

  /** The real in a cell; 0 for any other cell. */
  function RealCell(v: Value): real
  {
    if v.RealValue? then v.r else 0.0
  }

  /** The sum of column `k` over a result's rows. */
  function ColumnSum(rows: seq<seq<Value>>, k: nat): real
  {
    if rows == [] then 0.0
    else (if k < |rows[0]| then RealCell(rows[0][k]) else 0.0) + ColumnSum(rows[1..], k)
  }

  function PersonIdSeq(ps: seq<Person>): (r: seq<int>)
    ensures |r| == |ps|
    ensures forall i :: 0 <= i < |ps| ==> r[i] == ps[i].id
  {
    if ps == [] then [] else [ps[0].id] + PersonIdSeq(ps[1..])
  }

  function AmountsOf(ts: seq<Transfer>): (r: seq<real>)
    ensures |r| == |ts|
    ensures forall i :: 0 <= i < |ts| ==> r[i] == ts[i].amount
  {
    if ts == [] then [] else [ts[0].amount] + AmountsOf(ts[1..])
  }

  lemma {:induction false} PersonColumnSum(db: Database, ps: seq<Person>)
    ensures ColumnSum(PersonRows(db, ps), 2) == SumOverKeys(PersonIdSeq(ps), PersonAmounts(db.transfers))
  {
    if ps != [] {
      PersonColumnSum(db, ps[1..]);
      GroupSumIsSumFor(PersonAmounts(db.transfers), ps[0].id);
      assert PersonRows(db, ps)[1..] == PersonRows(db, ps[1..]);
      assert PersonIdSeq(ps)[1..] == PersonIdSeq(ps[1..]);
    }
  }

  lemma PersonAmountsTotal(ts: seq<Transfer>)
    ensures Amounts(PersonAmounts(ts)) == AmountsOf(ts)
  {
  }

  lemma CategoryAmountsTotal(db: Database, ts: seq<Transfer>)
    ensures Amounts(CategoryAmounts(db, ts)) == AmountsOf(ts)
  {
  }

  /** On a valid database every transfer's person is a listed person. */
  lemma PersonKeysCover(db: Database)
    requires Valid(db)
    ensures forall x :: x in PersonAmounts(db.transfers) ==> x.0 in PersonIdSeq(db.persons)
  {
    var keys := PersonIdSeq(db.persons);
    var pairs := PersonAmounts(db.transfers);
    forall x | x in pairs ensures x.0 in keys {
      var i :| 0 <= i < |pairs| && pairs[i] == x;
      assert db.transfers[i] in db.transfers;
      ListedIdInIdSeq(db.persons, db.transfers[i].personId);
    }
  }

  lemma ListedIdInIdSeq(ps: seq<Person>, id: int)
    requires id in PersonIds(ps)
    ensures id in PersonIdSeq(ps)
  {
    var p :| p in ps && p.id == id;
    var j :| 0 <= j < |ps| && ps[j] == p;
    assert PersonIdSeq(ps)[j] == id;
  }

  lemma PersonIdsDistinct(db: Database)
    requires Valid(db)
    ensures NoDuplicates(PersonIdSeq(db.persons))
  {
  }

  /** The per-person totals add up to the sum of all transfers: every
      transfer belongs to exactly one listed person. */
  lemma PersonTotalsPartition(db: Database)
    requires Valid(db)
    ensures ColumnSum(Eval(db, AllPersons).rows, 2) == Total(AmountsOf(db.transfers))
  {
    assert Eval(db, AllPersons).rows == PersonRows(db, db.persons);
    PersonColumnSum(db, db.persons);
    PersonKeysCover(db);
    PersonIdsDistinct(db);
    GroupSumsPartitionTotal(PersonIdSeq(db.persons), PersonAmounts(db.transfers));
    PersonAmountsTotal(db.transfers);
  }

  lemma {:induction false} CategoryColumnSum(pairs: seq<(Option<string>, real)>, keys: seq<Option<string>>)
    ensures ColumnSum(CategoryTotalRows(pairs, keys), 1) == SumOverKeys(keys, pairs)
  {
    if keys != [] {
      CategoryColumnSum(pairs, keys[1..]);
      GroupSumIsSumFor(pairs, keys[0]);
      assert CategoryTotalRows(pairs, keys)[1..] == CategoryTotalRows(pairs, keys[1..]);
    }
  }

  lemma GroupKeysCover(pairs: seq<(Option<string>, real)>)
    ensures forall x :: x in pairs ==> x.0 in Distinct(Firsts(pairs))
  {
    forall x | x in pairs ensures x.0 in Distinct(Firsts(pairs)) {
      var i :| 0 <= i < |pairs| && pairs[i] == x;
      assert Firsts(pairs)[i] == x.0;
    }
  }

  /** The per-category totals add up to the sum of all transfers. */
  lemma CategoryTotalsPartition(db: Database)
    ensures ColumnSum(Eval(db, TotalsByCategory).rows, 1) == Total(AmountsOf(db.transfers))
  {
    var pairs := CategoryAmounts(db, db.transfers);
    assert Eval(db, TotalsByCategory).rows == CategoryTotalRows(pairs, CategoryGroups(db));
    CategoryColumnSum(pairs, CategoryGroups(db));
    GroupKeysCover(pairs);
    GroupSumsPartitionTotal(CategoryGroups(db), pairs);
    CategoryAmountsTotal(db, db.transfers);
  }

  /** Every group key comes from some transfer. */
  lemma GroupKeyOrigin(db: Database, k: Option<string>)
    requires k in CategoryGroups(db)
    ensures exists i :: 0 <= i < |db.transfers| && CategoryKey(db, db.transfers[i]) == k
  {
    var firsts := Firsts(CategoryAmounts(db, db.transfers));
    var i :| 0 <= i < |firsts| && firsts[i] == k;
    assert CategoryKey(db, db.transfers[i]) == k;
  }

  /** On a valid database a transfer's group key is its category's name. */
  lemma CategoryKeyOfTransfer(db: Database, t: Transfer, c: Category)
    requires Valid(db) && c in db.categories && t.categoryId == c.id
    ensures CategoryKey(db, t) == Some(c.name)
  {
    var found := FindCategory(db.categories, t.categoryId).value;
    var a :| 0 <= a < |db.categories| && db.categories[a] == c;
    var b :| 0 <= b < |db.categories| && db.categories[b] == found;
    assert a == b;
  }

  /** On a valid database no group is NULL: every transfer has a category. */
  lemma CategoryGroupsNotNull(db: Database)
    requires Valid(db)
    ensures None !in CategoryGroups(db)
  {
    forall i | 0 <= i < |db.transfers| ensures CategoryKey(db, db.transfers[i]).Some? {
      assert db.transfers[i] in db.transfers;
    }
    if None in CategoryGroups(db) {
      GroupKeyOrigin(db, None);
    }
  }

  lemma GroupIsUsedCategory(db: Database, name: string)
    requires Some(name) in CategoryGroups(db)
    ensures exists c, t :: c in db.categories && t in db.transfers && t.categoryId == c.id && c.name == name
  {
    GroupKeyOrigin(db, Some(name));
    var i :| 0 <= i < |db.transfers| && CategoryKey(db, db.transfers[i]) == Some(name);
    var t := db.transfers[i];
    var c := FindCategory(db.categories, t.categoryId).value;
    assert c in db.categories && t in db.transfers && t.categoryId == c.id && c.name == name;
  }

  lemma UsedCategoryIsGroup(db: Database, c: Category, t: Transfer)
    requires Valid(db)
    requires c in db.categories && t in db.transfers && t.categoryId == c.id
    ensures Some(c.name) in CategoryGroups(db)
  {
    var i :| 0 <= i < |db.transfers| && db.transfers[i] == t;
    CategoryKeyOfTransfer(db, t, c);
    assert Firsts(CategoryAmounts(db, db.transfers))[i] == Some(c.name);
  }

  /** On a valid database the groups of the per-category query are exactly
      the names of the categories that have at least one transfer, each
      once, and no group is NULL. */
  lemma CategoryGroupsAreUsedCategories(db: Database, name: string)
    requires Valid(db)
    ensures None !in CategoryGroups(db)
    ensures Some(name) in CategoryGroups(db) <==>
      exists c, t :: c in db.categories && t in db.transfers && t.categoryId == c.id && c.name == name
    ensures NoDuplicates(CategoryGroups(db))
  {
    CategoryGroupsNotNull(db);
    if Some(name) in CategoryGroups(db) {
      GroupIsUsedCategory(db, name);
    }
    if exists c, t :: c in db.categories && t in db.transfers && t.categoryId == c.id && c.name == name {
      var c, t :| c in db.categories && t in db.transfers && t.categoryId == c.id && c.name == name;
      UsedCategoryIsGroup(db, c, t);
    }
  }

  /** After a person is deleted, the person's transfer query returns no rows. */
  lemma DeletedPersonHasNoTransfers(db: Database, personId: int)
    requires Valid(db)
    ensures var e := Execute(db, DeletePerson(personId));
      e.outcome == Pass ==> Matching(e.db, Filter(Some(personId), None, None)) == []
  {
    if Execute(db, DeletePerson(personId)).outcome == Pass {
      var after := Execute(db, DeletePerson(personId)).db;
      var f := Filter(Some(personId), None, None);
      ExecutePreservesValid(db, DeletePerson(personId));
      DeletePersonCascades(db, personId);
      forall t | t in after.transfers ensures !Matches(after, t, f) {
        MatchingIff(after, f, t);
        assert t !in Matching(after, f);
      }
      KeepNone(after.transfers, (t: Transfer) => Matches(after, t, f));
    }
  }

  /** After a category is deleted by name, its transfer query returns no rows. */
  lemma DeletedCategoryHasNoTransfers(db: Database, c: Category)
    requires Valid(db) && c in db.categories
    ensures var e := Execute(db, DeleteCategory(c.name));
      e.outcome == Pass ==> Matching(e.db, Filter(None, Some(c.id), None)) == []
  {
    if Execute(db, DeleteCategory(c.name)).outcome == Pass {
      var after := Execute(db, DeleteCategory(c.name)).db;
      var f := Filter(None, Some(c.id), None);
      ExecutePreservesValid(db, DeleteCategory(c.name));
      DeleteCategoryCascades(db, c.name);
      forall t | t in after.transfers ensures !Matches(after, t, f) {
        MatchingIff(after, f, t);
        assert t !in Matching(after, f);
      }
      KeepNone(after.transfers, (t: Transfer) => Matches(after, t, f));
    }
  }

  /** On a database CheckDatabase accepts, every query finds its tables. */
  lemma CheckedSchemaHasQueryTables(db: Database, q: Query)
    requires SchemaMatches(db.catalog)
    ensures QueryTables(q) <= db.catalog.tables
  {
    assert RequiredTables == ["person", "category", "transfer"];
  }

  /** A combined query returns exactly the transfers that each of its
      single-condition queries returns. */
  lemma CombinedIsIntersection(db: Database, f: Filter, t: Transfer)
    ensures t in Matching(db, f) <==>
      && t in Matching(db, Filter(f.person, None, None))
      && t in Matching(db, Filter(None, f.category, None))
      && t in Matching(db, Filter(None, None, f.period))
  {
  }

  /** On a valid database a transfer's LEFT JOIN finds its person. */
  lemma PersonOfTransfer(db: Database, t: Transfer, p: Person)
    requires Valid(db) && p in db.persons && t.personId == p.id
    ensures FindPerson(db.persons, t.personId) == Some(p)
  {
    var found := FindPerson(db.persons, t.personId).value;
    var a :| 0 <= a < |db.persons| && db.persons[a] == p;
    var b :| 0 <= b < |db.persons| && db.persons[b] == found;
    assert a == b;
  }

  /** The transfer listing has one row per transfer, in table order, with
      the transfer's id, the name of the person it belongs to, its
      description and amount, and its date as DD-MM-YYYY. */
  lemma TransferListing(db: Database, i: int)
    requires Valid(db) && 0 <= i < |db.transfers|
    ensures |Eval(db, AllTransfers).rows| == |db.transfers|
    ensures var t := db.transfers[i];
      var row := Eval(db, AllTransfers).rows[i];
      && row[0] == IntValue(t.id)
      && (exists p :: p in db.persons && p.id == t.personId)
      && (forall p :: p in db.persons && p.id == t.personId ==> row[1] == TextValue(p.name))
      && row[2] == TextValue(t.description)
      && row[3] == RealValue(t.amount)
      && row[4] == TextValue(Format(t.doneAt))
  {
    var t := db.transfers[i];
    assert t in db.transfers;
    assert t.personId in PersonIds(db.persons);
    forall p | p in db.persons && p.id == t.personId
      ensures Eval(db, AllTransfers).rows[i][1] == TextValue(p.name)
    {
      PersonOfTransfer(db, t, p);
    }
  }

  lemma CategoryTotalRowAt(pairs: seq<(Option<string>, real)>, keys: seq<Option<string>>, i: int)
    requires 0 <= i < |keys|
    ensures CategoryTotalRows(pairs, keys)[i] == [KeyCell(keys[i]), RealValue(SumFor(pairs, keys[i]))]
  {
    GroupSumIsSumFor(pairs, keys[i]);
  }

  /** The per-category report has one row per group, in order of first
      appearance: the category name and the sum of the amounts of that
      category's transfers. */
  lemma CategoryTotalsListing(db: Database, i: int)
    requires 0 <= i < |CategoryGroups(db)|
    ensures var rows := Eval(db, TotalsByCategory).rows;
      && |rows| == |CategoryGroups(db)|
      && rows[i] == [KeyCell(CategoryGroups(db)[i]),
                     RealValue(SumFor(CategoryAmounts(db, db.transfers), CategoryGroups(db)[i]))]
  {
    TotalsByCategoryRows(db);
    CategoryTotalRowAt(CategoryAmounts(db, db.transfers), CategoryGroups(db), i);
  }

  lemma TotalsByCategoryRows(db: Database)
    ensures Eval(db, TotalsByCategory)
      == ResultSet(CategoryTotalFields, CategoryTotalRows(CategoryAmounts(db, db.transfers), CategoryGroups(db)))
  {
  }
}
