/** Archive integrity: over any run of updates, with any workbooks and any faults, what ARCHIVE says about
    a date stays true for ever. */
module Archive {
  import opened Text
  import opened Database
  import opened DbTables
  import opened Ingest
  import opened DataService

  // ---------- What an update can touch ----------

  /** Outside the inner try only the three current tables are written, and never renamed. */
  predicate TouchesCurrent(s: Statement) {
    !s.RenameTable? && s.table in {LAST, TITLES, STOCK} &&
    (s.CreateTable? && s.table == TITLES ==> s.fields == DATA_TITLES_FIELDS)
  }

  predicate PlanTouchesCurrent(p: Plan) {
    match p
    case Do(s, next) => TouchesCurrent(s) && PlanTouchesCurrent(next)
    case Check(_, _, next) => PlanTouchesCurrent(next)
    case Throw => true
    case Commit => true
  }

  lemma {:induction false} RowPlanTouchesCurrent(b: Workbook, i: nat, l: Local)
    requires i <= |b.rows|
    ensures PlanTouchesCurrent(RowPlan(b, i, l))
    decreases |b.rows| - i, 0, 1
  {
    CurrentTablesDiffer();
    if i == |b.rows| {
      var insert := Do(Insert(LAST, ["date", "time"], [l.date, l.time]), Commit);
      assert PlanTouchesCurrent(insert);
    } else {
      var r, l' := b.rows[i].r, HeadLocal(b.rows[i].r, l);
      var next := CellPlan(b, i, 0, l');
      CellPlanTouchesCurrent(b, i, 0, l');
      var insert := if r > 2 then Do(Insert(STOCK, ["r"], [IntToStr(r)]), next) else next;
      assert PlanTouchesCurrent(insert);
    }
  }

  lemma {:induction false} CellPlanTouchesCurrent(b: Workbook, i: nat, j: nat, l: Local)
    requires i < |b.rows| && j <= |b.rows[i].cells|
    ensures PlanTouchesCurrent(CellPlan(b, i, j, l))
    decreases |b.rows| - i, 0, 0, |b.rows[i].cells| - j
  {
    if j == |b.rows[i].cells| {
      RowPlanTouchesCurrent(b, i + 1, l);
    } else {
      var a := CellAction(b.sharedStrings, b.rows[i].r, b.rows[i].cells[j], j, l);
      if a.Act? {
        if a.brk { RowPlanTouchesCurrent(b, i + 1, a.local); } else { CellPlanTouchesCurrent(b, i, j + 1, a.local); }
      }
    }
  }

  // ---------- The invariant ----------

  function CellText(r: Row, column: string): string {
    Fetch(r, column, "")
  }

  /** An ARCHIVE row names two existing tables made from its own date. */
  ghost predicate GoodEntry(db: Tables, r: Row) {
    "date" in r.cells &&
    CellText(r, "datatitlestbl") == TableFromDate("DATA_TITLES", CellText(r, "date")) &&
    CellText(r, "stockdatatbl") == TableFromDate("STOCK_DATA", CellText(r, "date")) &&
    CellText(r, "datatitlestbl") in db && CellText(r, "stockdatatbl") in db &&
    "title" in db[CellText(r, "datatitlestbl")].columns
  }

  /** No two entries share their date or a table. */
  ghost predicate Apart(q: Row, r: Row) {
    CellText(q, "date") != CellText(r, "date") && CellText(q, "datatitlestbl") != CellText(r, "datatitlestbl") &&
    CellText(q, "stockdatatbl") != CellText(r, "stockdatatbl")
  }

  ghost predicate Good(db: Tables) {
    ARCHIVE in db && db[ARCHIVE].columns == ARCHIVE_COLUMNS && db[ARCHIVE].key == TextKey && Sorted(db[ARCHIVE].rows) &&
    (forall i :: 0 <= i < |db[ARCHIVE].rows| ==> GoodEntry(db, db[ARCHIVE].rows[i])) &&
    (forall i, j :: 0 <= i < j < |db[ARCHIVE].rows| ==> Apart(db[ARCHIVE].rows[i], db[ARCHIVE].rows[j])) &&
    (TITLES in db ==> "title" in db[TITLES].columns)
  }

  predicate IsDated(t: string) {
    ARCHIVE_PREFIX <= t
  }

  /** Later states keep every dated table and every ARCHIVE row, in place. */
  ghost predicate Extends(db: Tables, db': Tables) {
    (forall t <- db :: IsDated(t) ==> t in db' && db'[t] == db[t]) &&
    ARCHIVE in db && ARCHIVE in db' && db[ARCHIVE].rows <= db'[ARCHIVE].rows
  }

  /** ... and have archived nothing more. */
  ghost predicate SameArchive(db: Tables, db': Tables) {
    Extends(db, db') && db'[ARCHIVE] == db[ARCHIVE]
  }

  lemma ExtendsTransitive(a: Tables, b: Tables, c: Tables)
    requires Extends(a, b) && Extends(b, c)
    ensures Extends(a, c)
  {
  }

  lemma EntryTablesAreDated(db: Tables, r: Row)
    requires GoodEntry(db, r)
    ensures IsDated(CellText(r, "datatitlestbl")) && IsDated(CellText(r, "stockdatatbl"))
    ensures CellText(r, "datatitlestbl") !in {LAST, TITLES, STOCK, ARCHIVE}
    ensures CellText(r, "stockdatatbl") !in {LAST, TITLES, STOCK, ARCHIVE}
  {
    DatedNamesAreNotCurrent("DATA_TITLES", CellText(r, "date"));
    DatedNamesAreNotCurrent("STOCK_DATA", CellText(r, "date"));
  }

  lemma CurrentIsNotDated()
    ensures !IsDated(LAST) && !IsDated(TITLES) && !IsDated(STOCK) && !IsDated(ARCHIVE)
  {
    assert |ARCHIVE_PREFIX| == 9 && ARCHIVE_PREFIX[0] == 'a' && |ARCHIVE| == 7;
    assert LAST[0] == 'l' && TITLES[0] == 'd' && STOCK[0] == 's';
  }

  /** A change that leaves all dated tables and ARCHIVE alone keeps the invariant. */
  lemma GoodIsKept(db: Tables, db': Tables)
    requires Good(db)
    requires forall t <- db :: IsDated(t) || t == ARCHIVE ==> t in db' && db'[t] == db[t]
    requires TITLES in db' ==> "title" in db'[TITLES].columns
    ensures Good(db') && Extends(db, db')
  {
    forall i | 0 <= i < |db[ARCHIVE].rows|
      ensures GoodEntry(db', db[ARCHIVE].rows[i])
    {
      assert GoodEntry(db, db[ARCHIVE].rows[i]);
      EntryTablesAreDated(db, db[ARCHIVE].rows[i]);
    }
  }

  lemma CurrentStatementKeepsGood(db: Tables, s: Statement)
    requires Good(db) && TouchesCurrent(s) && Apply(db, s).Some?
    ensures Good(Apply(db, s).value) && Extends(db, Apply(db, s).value)
  {
    CurrentIsNotDated();
    CurrentTablesDiffer();
    var db' := Apply(db, s).value;
    forall t | t in db && (IsDated(t) || t == ARCHIVE)
      ensures t in db' && db'[t] == db[t]
    {
      ApplyFrame(db, s, t);
    }
    TitlesKeepColumn(db, s);
    GoodIsKept(db, db');
  }

  lemma TitlesKeepColumn(db: Tables, s: Statement)
    requires TouchesCurrent(s) && Apply(db, s).Some?
    requires TITLES in db ==> "title" in db[TITLES].columns
    ensures var db' := Apply(db, s).value; TITLES in db' ==> "title" in db'[TITLES].columns
  {
    hide IsCellRef, StrToInt, CellsOf, InsertRow, IntToStr;
    CurrentTablesDiffer();
    if s.table != TITLES {
      ApplyFrame(db, s, TITLES);
    } else if s.CreateTable? {
      assert Columns(DATA_TITLES_FIELDS) == [TextColumn("id"), TextColumn("title")];
      assert FieldNames(Columns(DATA_TITLES_FIELDS))[1] == "title";
    }
  }

  // ---------- Rotation ----------

  lemma RenameKeepsGood(db: Tables, table: string, date: string)
    requires Good(db) && table in {TITLES, STOCK}
    requires var id := if table == TITLES then "DATA_TITLES" else "STOCK_DATA";
             Apply(db, RenameTable(table, TableFromDate(id, date))).Some?
    ensures var id := if table == TITLES then "DATA_TITLES" else "STOCK_DATA";
            var db' := Apply(db, RenameTable(table, TableFromDate(id, date))).value;
            Good(db') && Extends(db, db')
  {
    hide TableFromDate;
    CurrentIsNotDated();
    CurrentTablesDiffer();
    var id := if table == TITLES then "DATA_TITLES" else "STOCK_DATA";
    var db' := Apply(db, RenameTable(table, TableFromDate(id, date))).value;
    forall t | t in db && (IsDated(t) || t == ARCHIVE)
      ensures t in db' && db'[t] == db[t]
    {
    }
    DatedNamesAreNotCurrent(id, date);
    GoodIsKept(db, db');
  }

  lemma CellsOfDistinct(names: seq<string>, values: seq<string>)
    requires |names| == |values| && Distinct(names)
    ensures forall i :: 0 <= i < |names| ==> names[i] in CellsOf(names, values) && CellsOf(names, values)[names[i]] == values[i]
    ensures forall c <- CellsOf(names, values) :: c in names
  {
    forall i | 0 <= i < |names|
      ensures names[i] !in names[..i]
    {
    }
  }

  function EntryFor(date: string, time: string): map<string, string> {
    CellsOf(ARCHIVE_COLUMNS, [date, time, TableFromDate("DATA_TITLES", date), TableFromDate("STOCK_DATA", date)])
  }

  lemma EntryCells(date: string, time: string)
    ensures var e := EntryFor(date, time);
            "date" in e && e["date"] == date && "time" in e && e["time"] == time &&
            "datatitlestbl" in e && e["datatitlestbl"] == TableFromDate("DATA_TITLES", date) &&
            "stockdatatbl" in e && e["stockdatatbl"] == TableFromDate("STOCK_DATA", date)
  {
    var values := [date, time, TableFromDate("DATA_TITLES", date), TableFromDate("STOCK_DATA", date)];
    hide TableFromDate;
    assert |ARCHIVE_COLUMNS[0]| == 4 && |ARCHIVE_COLUMNS[1]| == 4 && ARCHIVE_COLUMNS[0][0] != ARCHIVE_COLUMNS[1][0];
    assert |ARCHIVE_COLUMNS[2]| == 13 && |ARCHIVE_COLUMNS[3]| == 12;
    CellsOfDistinct(ARCHIVE_COLUMNS, values);
    assert ARCHIVE_COLUMNS[0] == "date" && ARCHIVE_COLUMNS[1] == "time";
    assert ARCHIVE_COLUMNS[2] == "datatitlestbl" && ARCHIVE_COLUMNS[3] == "stockdatatbl";
  }

  /** Recording a date whose two tables have just appeared appends exactly one entry. */
  lemma RecordKeepsGood(before: Tables, db: Tables, date: string, time: string)
    requires Good(before) && Good(db) && db[ARCHIVE] == before[ARCHIVE]
    requires TableFromDate("STOCK_DATA", date) !in before && TableFromDate("DATA_TITLES", date) !in before
    requires TableFromDate("STOCK_DATA", date) in db && TableFromDate("DATA_TITLES", date) in db
    requires "title" in db[TableFromDate("DATA_TITLES", date)].columns
    ensures var db' := Apply(db, RotationStatements(date, time)[2]);
            db'.Some? && Good(db'.value) && Extends(db, db'.value) &&
            db'.value == db[ARCHIVE := db[ARCHIVE].(rows := db[ARCHIVE].rows +
                           [Row(NextRowId(db[ARCHIVE].rows), EntryFor(date, time))])]
  {
    assert ARCHIVE in db && db[ARCHIVE].columns == ARCHIVE_COLUMNS && db[ARCHIVE].key == TextKey;
    hide TableFromDate, EntryFor, Good, Apply, InsertRow, RotationStatements, NextRowId, Extends, Apart;
    var t := db[ARCHIVE];
    var row := Row(NextRowId(t.rows), EntryFor(date, time));
    NewEntryIsApart(before, date, time);
    InsertAtEnd(t.rows, row);
    RecordApplies(db, date, time);
    AppendKeepsGood(db, row, date, time);
  }

  lemma NewEntryIsApart(db: Tables, date: string, time: string)
    requires Good(db)
    requires TableFromDate("STOCK_DATA", date) !in db && TableFromDate("DATA_TITLES", date) !in db
    ensures var rows := db[ARCHIVE].rows;
            var row := Row(NextRowId(rows), EntryFor(date, time));
            (forall r <- rows :: "date" in r.cells && r.cells["date"] != date && r.id < row.id) &&
            (forall i :: 0 <= i < |rows| ==> Apart(rows[i], row))
  {
    hide TableFromDate, EntryFor;
    EntryCells(date, time);
    var rows := db[ARCHIVE].rows;
    var row := Row(NextRowId(rows), EntryFor(date, time));
    forall i | 0 <= i < |rows|
      ensures "date" in rows[i].cells && rows[i].cells["date"] != date && rows[i].id < row.id && Apart(rows[i], row)
    {
      assert GoodEntry(db, rows[i]);
    }
  }

  lemma AppendKeepsGood(db: Tables, row: Row, date: string, time: string)
    requires Good(db) && row.cells == EntryFor(date, time)
    requires TableFromDate("STOCK_DATA", date) in db && TableFromDate("DATA_TITLES", date) in db
    requires "title" in db[TableFromDate("DATA_TITLES", date)].columns
    requires forall r <- db[ARCHIVE].rows :: r.id < row.id
    requires forall i :: 0 <= i < |db[ARCHIVE].rows| ==> Apart(db[ARCHIVE].rows[i], row)
    ensures var db' := db[ARCHIVE := db[ARCHIVE].(rows := db[ARCHIVE].rows + [row])]; Good(db') && Extends(db, db')
  {
    hide TableFromDate, EntryFor, Apart;
    EntryCells(date, time);
    var former := db[ARCHIVE].rows;
    var rows := former + [row];
    var db' := db[ARCHIVE := db[ARCHIVE].(rows := rows)];
    DatedNamesAreNotCurrent("DATA_TITLES", date);
    DatedNamesAreNotCurrent("STOCK_DATA", date);
    CurrentIsNotDated();
    forall i | 0 <= i < |former|
      ensures GoodEntry(db', former[i])
    {
      assert GoodEntry(db, former[i]);
      EntryTablesAreDated(db, former[i]);
    }
    assert GoodEntry(db', row);
    TitlesAreKept(db, db');
  }

  lemma TitlesAreKept(db: Tables, db': Tables)
    requires TITLES in db ==> "title" in db[TITLES].columns
    requires forall t :: t != ARCHIVE ==> (t in db <==> t in db') && (t in db ==> db'[t] == db[t])
    ensures TITLES in db' ==> "title" in db'[TITLES].columns
  {
    CurrentTablesDiffer();
  }

  lemma RecordApplies(db: Tables, date: string, time: string)
    requires ARCHIVE in db && db[ARCHIVE].columns == ARCHIVE_COLUMNS && db[ARCHIVE].key == TextKey
    requires forall r <- db[ARCHIVE].rows :: "date" in r.cells && r.cells["date"] != date
    ensures var t := db[ARCHIVE];
            Apply(db, RotationStatements(date, time)[2]) ==
            Some(db[ARCHIVE := t.(rows := InsertRow(t.rows, Row(NextRowId(t.rows), EntryFor(date, time))))])
  {
    hide TableFromDate, CellsOf;
    EntryCells(date, time);
    var s := RotationStatements(date, time)[2];
    assert s.names == ARCHIVE_COLUMNS;
    var key := db[ARCHIVE].columns[0];
    assert key == "date";
    assert !exists r <- db[ARCHIVE].rows :: key in r.cells && r.cells[key] == EntryFor(date, time)[key];
  }

  /** The three rotation statements, stopped after any of them, keep the invariant. */
  lemma {:induction false} RotationKeepsGood(f: Faults, db: Tables, n: nat, date: string, time: string)
    requires Good(db)
    ensures var (db', _) := TryAll(f, db, n, RotationStatements(date, time)); Good(db') && Extends(db, db')
  {
    var s := RotationStatements(date, time);
    TryThree(f, db, n, s[0], s[1], s[2]);
    hide TableFromDate, TryAll, Good, Extends;
    ExtendsReflexive(db);
    var db1 := Execute(f, db, n, s[0]);
    if db1.Some? {
      RenameKeepsGood(db, STOCK, date) by { CurrentTablesDiffer(); }
      var db2 := Execute(f, db1.value, n + 1, s[1]);
      if db2.Some? {
        RenameKeepsGood(db1.value, TITLES, date);
        ExtendsTransitive(db, db1.value, db2.value);
        RenamedPair(db, db2.value, date, time);
        RecordKeepsGood(db, db2.value, date, time);
        ExtendsTransitive(db, db2.value, Apply(db2.value, s[2]).value);
      }
    }
  }

  /** After both renames the dated tables are there, were not there before, and ARCHIVE is as before. */
  lemma RenamedPair(db: Tables, db2: Tables, date: string, time: string)
    requires Good(db)
    requires var s := RotationStatements(date, time);
             Apply(db, s[0]).Some? && Apply(Apply(db, s[0]).value, s[1]) == Some(db2)
    ensures ARCHIVE in db && ARCHIVE in db2 && db2[ARCHIVE] == db[ARCHIVE]
    ensures var titles, stock := TableFromDate("DATA_TITLES", date), TableFromDate("STOCK_DATA", date);
            titles !in db && stock !in db && TITLES in db && STOCK in db &&
            db2 == (db - {TITLES, STOCK})[stock := db[STOCK]][titles := db[TITLES]] && titles != stock &&
            "title" in db2[titles].columns
  {
    hide TableFromDate;
    CurrentTablesDiffer();
    DatedNamesAreNotCurrent("DATA_TITLES", date);
    DatedNamesAreNotCurrent("STOCK_DATA", date);
    TitlesAndStockDiffer(date, date);
  }

  lemma CheckKeepsGood(f: Faults, db: Tables, n: nat, date: string, time: string)
    requires Good(db) && CheckStamp(f, db, n, date, time).Proceed?
    ensures var db' := CheckStamp(f, db, n, date, time).db; Good(db') && Extends(db, db')
  {
    hide TryAll, RotationStatements;
    var rows := if f(n) then None else Select(db, LAST, ["date", "time"]);
    if rows.Some? && rows.value != [] {
      RotationKeepsGood(f, db, n + 1, Fetch(rows.value[0], "date", ""), Fetch(rows.value[0], "time", ""));
    }
  }

  lemma {:induction false} ExecuteKeepsGood(f: Faults, db: Tables, n: nat, p: Plan)
    requires Good(db) && PlanTouchesCurrent(p) && ExecutePlan(f, db, n, p).Committed?
    ensures var db' := ExecutePlan(f, db, n, p).db; Good(db') && Extends(db, db')
    decreases p
  {
    hide Apply, CheckStamp, Good, Extends, TouchesCurrent;
    match p
    case Do(s, next) =>
      CurrentStatementKeepsGood(db, s);
      var db1 := Execute(f, db, n, s).value;
      ExecuteKeepsGood(f, db1, n + 1, next);
      ExtendsTransitive(db, db1, ExecutePlan(f, db, n, p).db);
    case Check(date, time, next) =>
      CheckKeepsGood(f, db, n, date, time);
      var c := CheckStamp(f, db, n, date, time);
      ExecuteKeepsGood(f, c.db, c.n, next);
      ExtendsTransitive(db, c.db, ExecutePlan(f, db, n, p).db);
    case Commit => ExtendsReflexive(db);
  }

  lemma ExtendsReflexive(db: Tables)
    requires Good(db)
    ensures Extends(db, db)
  {
  }

  // ---------- Whole runs ----------

  /** One call of Update: its workbook, its faults and the statement count it starts at. */
  datatype Event = Event(book: Option<Workbook>, faults: Faults, clock: nat)

  function Step(db: Tables, e: Event): Tables {
    After(UpdateOutcome(e.faults, db, e.clock, e.book), db)
  }

  function RunUpdates(db: Tables, events: seq<Event>): Tables
    decreases |events|
  {
    if events == [] then db else RunUpdates(Step(db, events[0]), events[1..])
  }

  /** InitTables on an empty database. */
  const INITIAL: Tables := map[ARCHIVE := Table(ARCHIVE_COLUMNS, TextKey, [])]

  lemma InitialIsGood()
    ensures Apply(map[], CreateTable(ARCHIVE, ARCHIVE_FIELDS)) == Some(INITIAL)
    ensures Good(INITIAL)
  {
    var c := [TextColumn("date"), TextColumn("time"), TextColumn("datatitlestbl"), TextColumn("stockdatatbl")];
    assert Columns(ARCHIVE_FIELDS) == c;
    assert FieldNames(c) == ARCHIVE_COLUMNS;
    assert |c[0].name| == 4 && |c[1].name| == 4 && c[0].name[0] != c[1].name[0];
    assert |c[2].name| == 13 && |c[3].name| == 12;
    CurrentTablesDiffer();
  }

  lemma StepKeepsGood(db: Tables, e: Event)
    requires Good(db)
    ensures Good(Step(db, e)) && Extends(db, Step(db, e))
  {
    hide Good, Extends, ExecutePlan, RowPlan, PlanTouchesCurrent;
    var outcome := UpdateOutcome(e.faults, db, e.clock, e.book);
    if outcome.Committed? {
      RowPlanTouchesCurrent(e.book.value, 0, START);
      ExecuteKeepsGood(e.faults, db, e.clock + 1, PlanOf(e.book.value));
    } else {
      ExtendsReflexive(db);
    }
  }

  lemma {:induction false} RunKeepsGood(db: Tables, events: seq<Event>)
    requires Good(db)
    ensures Good(RunUpdates(db, events)) && Extends(db, RunUpdates(db, events))
    decreases |events|
  {
    hide Good, Extends, Step;
    if events == [] {
      ExtendsReflexive(db);
    } else {
      StepKeepsGood(db, events[0]);
      RunKeepsGood(Step(db, events[0]), events[1..]);
      ExtendsTransitive(db, Step(db, events[0]), RunUpdates(db, events));
    }
  }

  /** At every point of every run from the initial database, whatever the workbooks and the faults:
      ARCHIVE dates are unique, every entry names two existing tables made from its date and shared with no
      other entry, and any further run keeps all entries and the contents of their tables. */
  lemma {:induction false} ArchiveIntegrity(events: seq<Event>, more: seq<Event>)
    ensures var db := RunUpdates(INITIAL, events);
            Good(db) && Good(RunUpdates(db, more)) && Extends(db, RunUpdates(db, more)) &&
            (forall r <- db[ARCHIVE].rows :: CellText(r, "datatitlestbl") != CellText(r, "stockdatatbl"))
  {
    hide RunUpdates, TableFromDate;
    InitialIsGood();
    RunKeepsGood(INITIAL, events);
    var db := RunUpdates(INITIAL, events);
    RunKeepsGood(db, more);
    forall r | r in db[ARCHIVE].rows
      ensures CellText(r, "datatitlestbl") != CellText(r, "stockdatatbl")
    {
      var i :| 0 <= i < |db[ARCHIVE].rows| && db[ARCHIVE].rows[i] == r;
      assert GoodEntry(db, db[ARCHIVE].rows[i]);
      TitlesAndStockDiffer(CellText(r, "date"), CellText(r, "date"));
    }
  }

  // ---------- Row order ----------

  lemma {:induction false} TryAllKeepsOrder(f: Faults, db: Tables, n: nat, statements: seq<Statement>)
    requires WellOrdered(db)
    ensures WellOrdered(TryAll(f, db, n, statements).0)
    decreases |statements|
  {
    hide Apply, WellOrdered;
    if statements != [] && Execute(f, db, n, statements[0]).Some? {
      ApplyKeepsOrder(db, statements[0]);
      TryAllKeepsOrder(f, Apply(db, statements[0]).value, n + 1, statements[1..]);
    }
  }

  lemma {:induction false} ExecuteKeepsOrder(f: Faults, db: Tables, n: nat, p: Plan)
    requires WellOrdered(db) && ExecutePlan(f, db, n, p).Committed?
    ensures WellOrdered(ExecutePlan(f, db, n, p).db)
    decreases p
  {
    hide Apply, WellOrdered, TryAll, RotationStatements;
    match p
    case Do(s, next) =>
      ApplyKeepsOrder(db, s);
      ExecuteKeepsOrder(f, Apply(db, s).value, n + 1, next);
    case Check(date, time, next) =>
      var c := CheckStamp(f, db, n, date, time);
      var rows := if f(n) then None else Select(db, LAST, ["date", "time"]);
      if rows.Some? && rows.value != [] {
        var d, t := Fetch(rows.value[0], "date", ""), Fetch(rows.value[0], "time", "");
        TryAllKeepsOrder(f, db, n + 1, RotationStatements(d, t));
      }
      ExecuteKeepsOrder(f, c.db, c.n, next);
    case Commit =>
  }

  /** Whatever order the rows of the workbooks come in, every table of every reachable state lists its rows
      in strictly ascending row number. */
  lemma {:induction false} RunKeepsOrder(db: Tables, events: seq<Event>)
    requires WellOrdered(db)
    ensures WellOrdered(RunUpdates(db, events))
    decreases |events|
  {
    hide WellOrdered, ExecutePlan, RowPlan;
    if events != [] {
      var e := events[0];
      if UpdateOutcome(e.faults, db, e.clock, e.book).Committed? {
        ExecuteKeepsOrder(e.faults, db, e.clock + 1, PlanOf(e.book.value));
      }
      RunKeepsOrder(Step(db, e), events[1..]);
    }
  }

  // ---------- What callers see ----------

  lemma {:induction false} FindInPrefix(rows: seq<Row>, rows': seq<Row>, date: string)
    requires rows <= rows' && FindDate(rows, date).Some?
    ensures FindDate(rows', date) == FindDate(rows, date)
  {
    assert rows[0] == rows'[0];
    if !("date" in rows[0].cells && rows[0].cells["date"] == date) {
      assert rows[1..] <= rows'[1..];
      FindInPrefix(rows[1..], rows'[1..], date);
    }
  }

  lemma {:induction false} FindAppended(rows: seq<Row>, row: Row, date: string)
    ensures FindDate(rows + [row], date) ==
            if FindDate(rows, date).Some? then FindDate(rows, date)
            else if "date" in row.cells && row.cells["date"] == date then Some(row) else None
  {
    if rows == [] {
      assert rows + [row] == [row] && [row][1..] == [];
    } else {
      assert (rows + [row])[0] == rows[0] && (rows + [row])[1..] == rows[1..] + [row];
      FindAppended(rows[1..], row, date);
    }
  }

  lemma {:induction false} FindIsSound(rows: seq<Row>, date: string)
    ensures FindDate(rows, date).Some? ==>
              FindDate(rows, date).value in rows && CellText(FindDate(rows, date).value, "date") == date
    ensures FindDate(rows, date).None? ==> forall r <- rows :: "date" in r.cells ==> r.cells["date"] != date
  {
    if rows != [] { FindIsSound(rows[1..], date); }
  }

  /** A request by date never faults: it finds the data exactly when ARCHIVE has the date. */
  lemma {:induction false} DataByDateIsTotal(db: Tables, dateId: string)
    requires Good(db)
    ensures var date := Replace(dateId, '-', '/');
            if exists r <- db[ARCHIVE].rows :: CellText(r, "date") == date
            then DataByDate(db, dateId).Data? && DataByDate(db, dateId).content.date == date
            else DataByDate(db, dateId) == NotFound
  {
    hide TableFromDate, Sorted, Apart, ReadRows, ReadTitles, Carried;
    var rows, date := db[ARCHIVE].rows, Replace(dateId, '-', '/');
    FindIsSound(rows, date);
    forall r | r in rows
      ensures GoodEntry(db, r)
    {
      var i :| 0 <= i < |rows| && rows[i] == r;
    }
  }

  /** Once a date is answered, the answer is the same after any further updates. */
  lemma {:induction false} AnswersNeverChange(db: Tables, events: seq<Event>, dateId: string)
    requires Good(db) && DataByDate(db, dateId).Data?
    ensures DataByDate(RunUpdates(db, events), dateId) == DataByDate(db, dateId)
  {
    hide TableFromDate, Sorted, Apart, ReadRows, ReadTitles, Carried, RunUpdates, FindDate;
    RunKeepsGood(db, events);
    var db' := RunUpdates(db, events);
    var rows, date := db[ARCHIVE].rows, Replace(dateId, '-', '/');
    FindIsSound(rows, date);
    FindInPrefix(rows, db'[ARCHIVE].rows, date);
    var r := FindDate(rows, date).value;
    var i :| 0 <= i < |rows| && rows[i] == r;
    assert GoodEntry(db, rows[i]);
    EntryTablesAreDated(db, r);
  }

  // ---------- Restarts ----------

  /** InitTables runs at every start of the program: on a database with a good archive it changes nothing. */
  lemma {:induction false} RestartKeepsArchive(db: Tables, events: seq<Event>)
    requires Good(db)
    ensures Apply(RunUpdates(db, events), CreateTable(ARCHIVE, ARCHIVE_FIELDS)) == Some(RunUpdates(db, events))
  {
    RunKeepsGood(db, events);
    hide RunUpdates;
  }
}
