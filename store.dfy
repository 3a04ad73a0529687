/** The complaints table (app.py:129-160 and the search query at
    app.py:292), modelled abstractly: the table's column list, which
    `init_db` migrates, and its rows in insertion order, which
    `store_complaint` appends to. Of the SQL engine, only one behaviour
    is modelled: it refuses to add the `timestamp` column, whose default
    `CURRENT_TIMESTAMP` is not a constant, to a table that already holds
    rows (`TimestampAlterRefused`). */
module ComplaintStore {
  import opened Options
  import opened Text

  /** The six columns of the original `CREATE TABLE` (app.py:134-135),
      which are also the columns every insert names (app.py:150). */
  const BASE_COLUMNS: seq<string> :=
    ["name", "age", "mobile_number", "email_id", "complaint", "department"]

  /** The data of one complaint, as `store_complaint` receives it
      (app.py:150-151). */
  datatype Complaint = Complaint(
    name: string, age: int, mobileNumber: string, emailId: string,
    complaint: string, department: string)

  /** A stored row: SQLite's implicit `rowid`, the `id` and `timestamp`
      columns (NULL as `None`), and the six data columns. */
  datatype Row = Row(rowid: nat, id: Option<int>, data: Complaint, timestamp: Option<string>)

  /** A row as `SELECT COALESCE(id, rowid) AS id, ...,
      COALESCE(timestamp, 'N/A') AS timestamp` returns it. */
  datatype FetchedRow = FetchedRow(id: int, data: Complaint, timestamp: string)

  /** The column list after `init_db` (app.py:134-141): the original six
      if the table was absent (an empty list), then `id`, then
      `timestamp`, each added only when the list read before either
      `ALTER TABLE` lacks it. */
  function Migrate(columns: seq<string>): (r: seq<string>)
    ensures "id" in r && "timestamp" in r
    ensures columns == [] ==> r == BASE_COLUMNS + ["id", "timestamp"]
    ensures columns != [] ==> |columns| <= |r| && r[..|columns|] == columns
    ensures forall c :: c in r ==> c in columns || c in BASE_COLUMNS || c == "id" || c == "timestamp"
    ensures ("id" in columns && "timestamp" in columns) ==> r == columns
    ensures columns != [] ==>
      r == columns + (if "id" in columns then [] else ["id"])
                   + (if "timestamp" in columns then [] else ["timestamp"])
  {
    var withId := AddId(columns);
    if "timestamp" in Created(columns) then withId else withId + ["timestamp"]
  }

  /** The column list right after `CREATE TABLE IF NOT EXISTS`, which is
      also the list `PRAGMA table_info` reads (app.py:134-137). */
  function Created(columns: seq<string>): seq<string>
  {
    if columns == [] then BASE_COLUMNS else columns
  }

  /** The column list after the first `ALTER TABLE` (app.py:138-139). */
  function AddId(columns: seq<string>): seq<string>
  {
    var created := Created(columns);
    if "id" in created then created else created + ["id"]
  }

  /** SQLite refuses `ADD COLUMN ... DEFAULT CURRENT_TIMESTAMP` on a table
      that already holds rows, because the default is not a constant: the
      second `ALTER TABLE` (app.py:140-141) raises exactly when the
      `timestamp` column is missing and the table is not empty. */
  predicate TimestampAlterRefused(columns: seq<string>, rows: seq<Row>)
  {
    "timestamp" !in columns && rows != []
  }

  /** A refused migration is refused again at every later start: the
      `id` column it left behind does not supply the `timestamp`. */
  lemma RefusalPersists(columns: seq<string>, rows: seq<Row>)
    requires TimestampAlterRefused(columns, rows)
    ensures TimestampAlterRefused(AddId(columns), rows)
    ensures AddId(AddId(columns)) == AddId(columns)
  {
  }

  /** Migrating a migrated table changes nothing. */
  lemma MigrateIdempotent(columns: seq<string>)
    ensures Migrate(Migrate(columns)) == Migrate(columns)
  {
  }

  /** What an insert can rely on: the table exists and has every column
      the `INSERT` names. */
  predicate HasInsertColumns(columns: seq<string>)
  {
    forall i :: 0 <= i < |BASE_COLUMNS| ==> BASE_COLUMNS[i] in columns
  }

  /** The state the application's own statements leave the table in:
      rows only once the table exists, rowids 1, 2, 3, ... in insertion
      order (the table is append-only), `id` never set, and no timestamp
      on a row stored before the `timestamp` column existed. */
  ghost predicate WellFormed(columns: seq<string>, rows: seq<Row>)
  {
    && (rows != [] ==> HasInsertColumns(columns))
    && (forall i :: 0 <= i < |rows| ==> rows[i].rowid == i + 1 && rows[i].id.None?)
    && ("timestamp" !in columns ==> forall i :: 0 <= i < |rows| ==> rows[i].timestamp.None?)
  }

  /** One row as the `SELECT` returns it. */
  function Project(row: Row): FetchedRow
  {
    FetchedRow(row.id.GetOr(row.rowid), row.data, row.timestamp.GetOr("N/A"))
  }

  /** The result of the `SELECT` over `rows`, row by row. */
  function Fetch(rows: seq<Row>): seq<FetchedRow>
  {
    seq(|rows|, i requires 0 <= i < |rows| => Project(rows[i]))
  }

  /** Appending a row appends its projection to what is fetched, and
      leaves the earlier fetched rows as they were. */
  lemma FetchAppend(rows: seq<Row>, row: Row)
    ensures Fetch(rows + [row]) == Fetch(rows) + [Project(row)]
  {
    var after := rows + [row];
    assert forall i :: 0 <= i < |rows| ==> after[i] == rows[i];
  }

  /** `WHERE name LIKE '%term%' OR complaint LIKE '%term%'`, read as
      substring containment. */
  predicate MatchesTerm(row: FetchedRow, term: string)
  {
    Contains(row.data.name, term) || Contains(row.data.complaint, term)
  }

  /** The rows of `rs` that match `term`, in their original order. */
  function FilterMatching(rs: seq<FetchedRow>, term: string): (r: seq<FetchedRow>)
    ensures |r| <= |rs|
    ensures forall x :: x in r <==> x in rs && MatchesTerm(x, term)
    ensures forall x :: multiset(r)[x] == if MatchesTerm(x, term) then multiset(rs)[x] else 0
    ensures term == [] ==> r == rs
  {
    if rs == [] then []
    else
      assert rs == [rs[0]] + rs[1..];
      (if MatchesTerm(rs[0], term) then [rs[0]] else []) + FilterMatching(rs[1..], term)
  }

  /** The complaints table behind the shared connection. */
  class ComplaintTable {
    /** The columns, in order; empty while the table does not exist. */
    var columns: seq<string>
    /** The rows, in insertion (rowid) order. */
    var rows: seq<Row>

    ghost predicate Valid()
      reads this
    {
      WellFormed(columns, rows)
    }

    /** Opens a database file holding `columns0` and `rows0`; a new file
        has neither. */
    constructor Open(columns0: seq<string>, rows0: seq<Row>)
      requires WellFormed(columns0, rows0)
      ensures Valid()
      ensures columns == columns0 && rows == rows0
    {
      columns := columns0;
      rows := rows0;
    }

    /** `init_db` (app.py:131-143): create the table if absent, then add
        `id` and `timestamp` when the column list read after the create
        lacks them. Existing rows get NULL in an added column. When the
        engine refuses the `timestamp` column, `init_db` raises with the
        `id` column already added (Python's `sqlite3` runs `ALTER TABLE`
        outside a transaction), and `ok` is false. */
    method InitDb() returns (ok: bool)
      requires Valid()
      modifies this
      ensures Valid()
      ensures ok <==> !TimestampAlterRefused(old(columns), old(rows))
      ensures ok ==> columns == Migrate(old(columns))
      ensures !ok ==> columns == AddId(old(columns)) && "timestamp" !in columns
      ensures rows == old(rows)
    {
      if columns == [] {
        columns := BASE_COLUMNS;
      }
      var existing := columns;
      if "id" !in existing {
        columns := columns + ["id"];
      }
      if "timestamp" !in existing {
        if rows != [] {
          return false;
        }
        columns := columns + ["timestamp"];
      }
      ok := true;
    }

    /** `store_complaint` (app.py:147-155): one `INSERT` naming the six
        data columns, in a transaction of its own. It fails, storing
        nothing, when the table lacks one of them; otherwise it appends
        exactly one row with the next rowid, no `id`, and the insertion
        time as timestamp when that column exists. */
    method Insert(data: Complaint, now: string) returns (ok: bool)
      requires Valid()
      modifies this
      ensures Valid()
      ensures columns == old(columns)
      ensures ok <==> HasInsertColumns(columns)
      ensures ok ==> rows == old(rows) + [NewRow(old(rows), data, now)]
      ensures !ok ==> rows == old(rows)
      ensures ok ==> FetchAll() == old(FetchAll()) + [FetchedRow(|old(rows)| + 1, data,
                                     if "timestamp" in columns then now else "N/A")]
    {
      ok := HasInsertColumns(columns);
      if ok {
        FetchAppend(rows, NewRow(rows, data, now));
        rows := rows + [NewRow(rows, data, now)];
      }
    }

    /** The row an insert appends: rowid one past the largest so far. */
    function NewRow(before: seq<Row>, data: Complaint, now: string): Row
      reads this
    {
      var rowid := if before == [] then 1 else before[|before| - 1].rowid + 1;
      Row(rowid, None, data, if "timestamp" in columns then Some(now) else None)
    }

    /** `fetch_complaints` (app.py:157-160): every row, with `id` falling
        back to the rowid, which is the row's 1-based ordinal. */
    function FetchAll(): (r: seq<FetchedRow>)
      reads this
      requires Valid()
      ensures |r| == |rows|
      ensures forall i :: 0 <= i < |r| ==> r[i].id == i + 1 && r[i].data == rows[i].data
      ensures forall i :: 0 <= i < |r| ==>
        r[i].timestamp == (if rows[i].timestamp.Some? then rows[i].timestamp.value else "N/A")
    {
      Fetch(rows)
    }

    /** The search query of app.py:292: the fetched rows whose name or
        complaint text contains `term`. */
    function Search(term: string): (r: seq<FetchedRow>)
      reads this
      requires Valid()
      ensures |r| <= |rows|
      ensures forall x :: x in r <==> x in FetchAll() && MatchesTerm(x, term)
      ensures forall x :: multiset(r)[x] == if MatchesTerm(x, term) then multiset(FetchAll())[x] else 0
      ensures term == [] ==> r == FetchAll()
    {
      FilterMatching(FetchAll(), term)
    }
  }

}
