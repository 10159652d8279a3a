/** Reading the tables back: GetLatestData, GetDataByDate and GetDataTree of PublicAPIResource. */
module DataService {
  import opened Text
  import opened Database
  import opened DbTables

  datatype Content = Content(date: string, time: string, titles: seq<string>, data: seq<seq<string>>)

  /** Fault: a query throws. Empty: LAST_UPDATE holds no row and an empty tree is returned. */
  datatype Reply = Fault | Empty | NotFound | Data(content: Content)

  // ---------- Result loops ----------

  /** Everything is fetched through one string variable, so a NULL repeats what was fetched before it. */
  function Carried(rows: seq<Row>, column: string, n: nat, value: string): string
    requires n <= |rows|
  {
    if n == 0 then value else Fetch(rows[n - 1], column, Carried(rows, column, n - 1, value))
  }

  function ReadTitles(rows: seq<Row>, n: nat): seq<string>
    requires n <= |rows|
  {
    if n == 0 then [] else ReadTitles(rows, n - 1) + [Carried(rows, "title", n, "")]
  }

  /** The string variable after the first `n` columns of a row. */
  function AfterColumns(columns: seq<string>, row: Row, n: nat, value: string): string
    requires n <= |columns|
  {
    if n == 0 then value else Fetch(row, columns[n - 1], AfterColumns(columns, row, n - 1, value))
  }

  /** The first `n` columns of a row, without the first one. */
  function ReadColumns(columns: seq<string>, row: Row, n: nat, value: string): seq<string>
    requires n <= |columns|
  {
    if n <= 1 then [] else ReadColumns(columns, row, n - 1, value) + [AfterColumns(columns, row, n, value)]
  }

  function AfterRows(columns: seq<string>, rows: seq<Row>, n: nat, value: string): string
    requires n <= |rows|
  {
    if n == 0 then value else AfterColumns(columns, rows[n - 1], |columns|, AfterRows(columns, rows, n - 1, value))
  }

  function ReadRows(columns: seq<string>, rows: seq<Row>, n: nat, value: string): seq<seq<string>>
    requires n <= |rows|
  {
    if n == 0 then []
    else ReadRows(columns, rows, n - 1, value)
         + [ReadColumns(columns, rows[n - 1], |columns|, AfterRows(columns, rows, n - 1, value))]
  }

  /** Titles and data of a pair of tables. */
  function ReadPair(db: Tables, titlesTable: string, stockTable: string, date: string, time: string): Reply {
    var titles, stock := Select(db, titlesTable, ["title"]), Select(db, stockTable, []);
    if titles.None? || stock.None? then Fault
    else
      var t, s := titles.value, stock.value;
      Data(Content(date, time, ReadTitles(t, |t|),
                   ReadRows(db[stockTable].columns, s, |s|, Carried(t, "title", |t|, ""))))
  }

  function LatestData(db: Tables): Reply {
    var last := Select(db, LAST, ["date", "time"]);
    if last.None? then Fault
    else if last.value == [] then Empty
    else ReadPair(db, TITLES, STOCK, Fetch(last.value[0], "date", ""), Fetch(last.value[0], "time", ""))
  }

  /** The first row of ARCHIVE with the given date. */
  function FindDate(rows: seq<Row>, date: string): Option<Row> {
    if rows == [] then None
    else if "date" in rows[0].cells && rows[0].cells["date"] == date then Some(rows[0])
    else FindDate(rows[1..], date)
  }

  const ARCHIVE_COLUMNS := ["date", "time", "datatitlestbl", "stockdatatbl"]

  function DataByDate(db: Tables, dateId: string): Reply {
    var archive := Select(db, ARCHIVE, ARCHIVE_COLUMNS);
    if archive.None? then Fault
    else
      match FindDate(archive.value, Replace(dateId, '-', '/'))
      case None => NotFound
      case Some(r) => ReadPair(db, Fetch(r, "datatitlestbl", ""), Fetch(r, "stockdatatbl", ""),
                               Fetch(r, "date", ""), Fetch(r, "time", ""))
  }

  method ReadTables(db: DB, titlesTable: string, stockTable: string, date: string, time: string) returns (reply: Reply)
    ensures reply == ReadPair(db.tables, titlesTable, stockTable, date, time)
  {
    reply := Fault;
    var r := Select(db.tables, titlesTable, ["title"]);
    if r.None? { return; }
    var t, value, titles, i := r.value, "", [], 0;
    while i < |t|
      invariant 0 <= i <= |t| && value == Carried(t, "title", i, "") && titles == ReadTitles(t, i)
    {
      value := Fetch(t[i], "title", value);
      titles := titles + [value];
      i := i + 1;
    }
    r := Select(db.tables, stockTable, []);
    if r.None? { return; }
    var s, columns, data, rowId := r.value, db.tables[stockTable].columns, [], 0;
    ghost var carried := value;
    while rowId < |s|
      invariant 0 <= rowId <= |s| == |r.value| && |data| == rowId
      invariant value == AfterRows(columns, s, rowId, carried) && data == ReadRows(columns, s, rowId, carried)
    {
      var row, c := [], 0;
      ghost var before := value;
      while c < |columns|
        invariant 0 <= c <= |columns|
        invariant value == AfterColumns(columns, s[rowId], c, before) && row == ReadColumns(columns, s[rowId], c, before)
      {
        value := Fetch(s[rowId], columns[c], value);
        if c != 0 {
          row := row + [value];
        }
        c := c + 1;
      }
      data := data + [row];
      rowId := rowId + 1;
    }
    reply := Data(Content(date, time, titles, data));
  }

  method GetLatestData(db: DB) returns (reply: Reply)
    ensures reply == LatestData(db.tables)
  {
    var r := Select(db.tables, LAST, ["date", "time"]);
    if r.None? { return Fault; }
    if r.value == [] { return Empty; }
    var date, time := Fetch(r.value[0], "date", ""), Fetch(r.value[0], "time", "");
    reply := ReadTables(db, TITLES, STOCK, date, time);
  }

  method GetDataByDate(db: DB, dateId: string) returns (reply: Reply)
    ensures reply == DataByDate(db.tables, dateId)
  {
    var r := Select(db.tables, ARCHIVE, ARCHIVE_COLUMNS);
    if r.None? { return Fault; }
    var found := FindDate(r.value, Replace(dateId, '-', '/'));
    if found.None? { return NotFound; }
    var row := found.value;
    reply := ReadTables(db, Fetch(row, "datatitlestbl", ""), Fetch(row, "stockdatatbl", ""),
                        Fetch(row, "date", ""), Fetch(row, "time", ""));
  }

  // ---------- Complete rows ----------

  predicate Complete(columns: seq<string>, row: Row) {
    forall c <- columns :: c in row.cells
  }

  function Values(columns: seq<string>, row: Row): seq<string>
    requires Complete(columns, row)
  {
    seq(|columns|, i requires 0 <= i < |columns| => row.cells[columns[i]])
  }

  lemma {:induction false} ReadCompleteRow(columns: seq<string>, row: Row, n: nat, value: string)
    requires 0 < n <= |columns| && Complete(columns, row)
    ensures ReadColumns(columns, row, n, value) == Values(columns, row)[1..n]
  {
    assert columns[n - 1] in columns;
    if n > 1 { ReadCompleteRow(columns, row, n - 1, value); }
  }

  /** Without NULLs the data is, row by row in rowid order, all columns but the first. */
  lemma {:induction false} ReadCompleteRows(columns: seq<string>, rows: seq<Row>, n: nat, value: string)
    requires n <= |rows| && columns != [] && forall r <- rows :: Complete(columns, r)
    ensures |ReadRows(columns, rows, n, value)| == n
    ensures forall i :: 0 <= i < n ==> ReadRows(columns, rows, n, value)[i] == Values(columns, rows[i])[1..]
  {
    if n > 0 {
      ReadCompleteRows(columns, rows, n - 1, value);
      assert rows[n - 1] in rows;
      ReadCompleteRow(columns, rows[n - 1], |columns|, AfterRows(columns, rows, n - 1, value));
    }
  }

  // ---------- Rows that end early ----------

  /** Just the columns up to number `m` hold values, the others NULL. */
  predicate Filled(columns: seq<string>, row: Row, m: nat) {
    m < |columns| && forall j :: 0 <= j < |columns| ==> (columns[j] in row.cells <==> j <= m)
  }

  /** All columns but the first, the last value repeated where there is none. */
  function Shown(columns: seq<string>, row: Row, m: nat): seq<string>
    requires Filled(columns, row, m)
  {
    seq(|columns| - 1, j requires 0 <= j < |columns| - 1 => row.cells[columns[if j + 1 <= m then j + 1 else m]])
  }

  lemma {:induction false} ReadFilledRow(columns: seq<string>, row: Row, m: nat, n: nat, value: string)
    requires Filled(columns, row, m) && 0 < n <= |columns|
    ensures AfterColumns(columns, row, n, value) == row.cells[columns[if n - 1 <= m then n - 1 else m]]
    ensures ReadColumns(columns, row, n, value) == Shown(columns, row, m)[..n - 1]
  {
    if n > 1 {
      ReadFilledRow(columns, row, m, n - 1, value);
    }
  }

  lemma {:induction false} ReadPrefix(columns: seq<string>, rows: seq<Row>, row: Row, n: nat, value: string)
    requires n <= |rows|
    ensures ReadRows(columns, rows + [row], n, value) == ReadRows(columns, rows, n, value)
    ensures AfterRows(columns, rows + [row], n, value) == AfterRows(columns, rows, n, value)
  {
    if n > 0 { ReadPrefix(columns, rows, row, n - 1, value); }
  }

  /** One more row that ends early: the rows before are read as ever, and nothing of them is carried into it. */
  lemma {:induction false} ReadOneMore(columns: seq<string>, rows: seq<Row>, row: Row, m: nat, value: string)
    requires Filled(columns, row, m)
    ensures var all := rows + [row];
            ReadRows(columns, all, |all|, value) == ReadRows(columns, rows, |rows|, value) + [Shown(columns, row, m)]
  {
    var all := rows + [row];
    ReadPrefix(columns, rows, row, |rows|, value);
    assert all[|all| - 1] == row;
    ReadFilledRow(columns, row, m, |columns|, AfterRows(columns, rows, |rows|, value));
    var shown := Shown(columns, row, m);
    assert shown[..|columns| - 1] == shown;
    hide ReadColumns, AfterColumns, Filled, Shown;
  }

  lemma {:induction false} ReadCompleteTitles(rows: seq<Row>, n: nat)
    requires n <= |rows| && forall r <- rows :: "title" in r.cells
    ensures |ReadTitles(rows, n)| == n
    ensures forall i :: 0 <= i < n ==> ReadTitles(rows, n)[i] == rows[i].cells["title"]
  {
    if n > 0 {
      ReadCompleteTitles(rows, n - 1);
      assert rows[n - 1] in rows;
    }
  }

  // ---------- NULLs ----------

  lemma {:induction false} NothingFetched(columns: seq<string>, row: Row, n: nat, value: string)
    requires n <= |columns| && forall j :: 0 <= j < n ==> columns[j] !in row.cells
    ensures AfterColumns(columns, row, n, value) == value
    ensures |ReadColumns(columns, row, n, value)| == (if n == 0 then 0 else n - 1)
    ensures forall j :: 0 <= j < |ReadColumns(columns, row, n, value)| ==> ReadColumns(columns, row, n, value)[j] == value
  {
    if n > 0 { NothingFetched(columns, row, n - 1, value); }
  }

  /** All values go through one string: a first data row of NULLs shows the last title in every column. */
  lemma LastTitleIsCarried(db: Tables, titles: string, stock: string, date: string, time: string)
    requires titles in db && "title" in db[titles].columns && db[titles].rows != []
    requires stock in db && db[stock].columns != [] && db[stock].rows != []
    requires forall c <- db[stock].columns :: c !in db[stock].rows[0].cells
    requires "title" in db[titles].rows[|db[titles].rows| - 1].cells
    ensures var reply, t := ReadPair(db, titles, stock, date, time), db[titles].rows;
            reply.Data? && reply.content.data != [] && |reply.content.data[0]| == |db[stock].columns| - 1 &&
            forall j :: 0 <= j < |reply.content.data[0]| ==> reply.content.data[0][j] == t[|t| - 1].cells["title"]
  {
    var columns, s, t := db[stock].columns, db[stock].rows, db[titles].rows;
    var value := Carried(t, "title", |t|, "");
    assert value == t[|t| - 1].cells["title"];
    NothingFetched(columns, s[0], |columns|, value);
    FirstRowIsRead(columns, s, |s|, value);
    hide ReadTitles, Carried, ReadRows, ReadColumns;
  }

  lemma {:induction false} FirstRowIsRead(columns: seq<string>, rows: seq<Row>, n: nat, value: string)
    requires 1 <= n <= |rows|
    ensures |ReadRows(columns, rows, n, value)| == n
    ensures ReadRows(columns, rows, n, value)[0] == ReadColumns(columns, rows[0], |columns|, value)
  {
    hide ReadColumns;
    if n > 1 { FirstRowIsRead(columns, rows, n - 1, value); } else { assert AfterRows(columns, rows, 0, value) == value; }
  }

  /** Missing tables and columns are errors; a LAST_UPDATE without rows is an empty reply; a date that ARCHIVE
      does not have is not found. */
  lemma RepliesWithoutData(db: Tables, dateId: string)
    ensures LAST !in db || "date" !in db[LAST].columns || "time" !in db[LAST].columns ==> LatestData(db) == Fault
    ensures LAST in db && "date" in db[LAST].columns && "time" in db[LAST].columns && db[LAST].rows == [] ==>
              LatestData(db) == Empty
    ensures ARCHIVE !in db ==> DataByDate(db, dateId) == Fault
    ensures ARCHIVE in db && db[ARCHIVE].columns == ARCHIVE_COLUMNS && db[ARCHIVE].rows == [] ==>
              DataByDate(db, dateId) == NotFound
  {
  }
}
