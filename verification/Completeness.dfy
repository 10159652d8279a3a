/** Archive completeness: over any fault-free run of well-formed workbooks with date cells, asking for a date
    gives exactly what was shown under it before it was first replaced. */
module Completeness {
  import opened Text
  import opened Database
  import opened DbTables
  import opened Stamp
  import opened Ingest
  import opened DataService
  import opened Archive
  import opened Atomicity
  import opened Fidelity

  // ---------- Runs ----------

  function DateOfBook(b: Workbook): string {
    StampOf(b).0
  }

  /** The tables after the first `k` workbooks. */
  function DbAt(bs: seq<Workbook>, k: nat): Tables
    requires k <= |bs|
  {
    if k == 0 then INITIAL else Step(DbAt(bs, k - 1), Event(Some(bs[k - 1]), NoFaults(), 0))
  }

  ghost predicate AllWellDated(bs: seq<Workbook>) {
    forall i :: 0 <= i < |bs| ==> WellDated(bs[i])
  }

  /** A date that another date has replaced does not come back. */
  ghost predicate NeverReturns(bs: seq<Workbook>) {
    forall i, j, k :: 0 <= i < j < k < |bs| && DateOfBook(bs[i]) != DateOfBook(bs[j]) ==>
      DateOfBook(bs[k]) != DateOfBook(bs[i])
  }

  lemma {:induction false} StampFromIsStampDate(b: Workbook, i: nat, date: string, time: string)
    requires i <= |b.rows| && IsStampDate(date)
    ensures IsStampDate(StampFrom(b, i, date, time).0)
    decreases |b.rows| - i
  {
    hide IsNormal, Stamped;
    if i < |b.rows| {
      var row := b.rows[i];
      if HasStamp(row) && Shared(b.sharedStrings, row.cells[FirstStamp(row.cells, 0)]).Some? {
        var v := Shared(b.sharedStrings, row.cells[FirstStamp(row.cells, 0)]).value;
        StampIsNormal(DateStamp, v, date);
        StampFromIsStampDate(b, i + 1, Stamped(DateStamp, v, date), Stamped(TimeStamp, v, time));
      } else {
        StampFromIsStampDate(b, i + 1, date, time);
      }
    }
  }

  // ---------- A complete rotation ----------

  /** The tables after the three rotation statements. */
  function RotatedFully(db: Tables, date: string, time: string): Tables
    requires ARCHIVE in db && TITLES in db && STOCK in db
  {
    var titles, stock := TableFromDate("DATA_TITLES", date), TableFromDate("STOCK_DATA", date);
    (db - {TITLES, STOCK})[stock := db[STOCK]][titles := db[TITLES]]
      [ARCHIVE := db[ARCHIVE].(rows := db[ARCHIVE].rows + [Row(NextRowId(db[ARCHIVE].rows), EntryFor(date, time))])]
  }

  lemma {:induction false} RotationSucceeds(f: Faults, db: Tables, n: nat, date: string, time: string)
    requires Good(db) && TITLES in db && STOCK in db && !f(n) && !f(n + 1) && !f(n + 2)
    requires TableFromDate("DATA_TITLES", date) !in db && TableFromDate("STOCK_DATA", date) !in db
    ensures TryAll(f, db, n, RotationStatements(date, time)).0 == RotatedFully(db, date, time)
    ensures Good(RotatedFully(db, date, time))
  {
    var s := RotationStatements(date, time);
    RotationKeepsGood(f, db, n, date, time);
    TryThree(f, db, n, s[0], s[1], s[2]);
    hide TryAll;
    BothRenamesSucceed(db, date, time);
    hide Apply, Good, TableFromDate, Extends;
    var db1 := Apply(db, s[0]).value;
    var db2 := Apply(db1, s[1]).value;
    RenamedPair(db, db2, date, time);
    RenameKeepsGood(db, STOCK, date) by { CurrentTablesDiffer(); }
    RenameKeepsGood(db1, TITLES, date);
    RecordKeepsGood(db, db2, date, time);
  }

  lemma BothRenamesSucceed(db: Tables, date: string, time: string)
    requires TITLES in db && STOCK in db
    requires TableFromDate("DATA_TITLES", date) !in db && TableFromDate("STOCK_DATA", date) !in db
    ensures var s := RotationStatements(date, time);
            Apply(db, s[0]).Some? && Apply(Apply(db, s[0]).value, s[1]).Some?
  {
    hide TableFromDate;
    CurrentTablesDiffer();
    TitlesAndStockDiffer(date, date);
  }

  /** The guards of a complete rotation that starts with statement `n`. */
  predicate RotationIsFree(f: Faults, db: Tables, n: nat, date: string) {
    TITLES in db && STOCK in db && TableFromDate("DATA_TITLES", date) !in db && TableFromDate("STOCK_DATA", date) !in db &&
    !f(n) && !f(n + 1) && !f(n + 2)
  }

  /** When a guard fails the rotation may move tables, but it leaves ARCHIVE and all dated tables as they are. */
  lemma {:induction false} RotationStops(f: Faults, db: Tables, n: nat, date: string, time: string)
    requires Good(db) && !RotationIsFree(f, db, n, date)
    ensures SameArchive(db, TryAll(f, db, n, RotationStatements(date, time)).0)
  {
    var s := RotationStatements(date, time);
    RotationKeepsGood(f, db, n, date, time);
    TryThree(f, db, n, s[0], s[1], s[2]);
    CurrentTablesDiffer();
    TitlesAndStockDiffer(date, date);
    DatedNamesAreNotCurrent("DATA_TITLES", date);
    DatedNamesAreNotCurrent("STOCK_DATA", date);
    assert ARCHIVE in db;
    hide TryAll, TableFromDate, Good, Extends;
    if Execute(f, db, n, s[0]).Some? {
      var db1 := Apply(db, s[0]).value;
      ApplyFrame(db, s[0], ARCHIVE);
      if Execute(f, db1, n + 1, s[1]).Some? { ApplyFrame(db1, s[1], ARCHIVE); }
    }
  }

  /** Under any faults a date gets its ARCHIVE entry exactly when both current tables exist, neither dated
      table does, and none of the three statements fails. In particular a date that returns and is replaced
      again is not archived a second time: its first tables stay, its later data is overwritten. */
  lemma {:induction false} ArchivedExactlyWhenFresh(f: Faults, db: Tables, n: nat, date: string, time: string)
    requires Good(db)
    ensures var db' := TryAll(f, db, n, RotationStatements(date, time)).0;
            ARCHIVE in db' &&
            db'[ARCHIVE].rows == db[ARCHIVE].rows +
              if RotationIsFree(f, db, n, date) then [Row(NextRowId(db[ARCHIVE].rows), EntryFor(date, time))] else []
  {
    hide TryAll, RotationStatements, TableFromDate, EntryFor, NextRowId;
    if RotationIsFree(f, db, n, date) {
      RotationSucceeds(f, db, n, date, time);
    } else {
      RotationStops(f, db, n, date, time);
    }
  }

  /** A date with a dated table is not rotated again, whatever the faults. */
  lemma {:induction false} NoSecondRotation(f: Faults, db: Tables, n: nat, date: string, time: string)
    requires TableFromDate("STOCK_DATA", date) in db
    ensures TryAll(f, db, n, RotationStatements(date, time)).0 == db
  {
    var s := RotationStatements(date, time);
    TryThree(f, db, n, s[0], s[1], s[2]);
    hide TryAll, TableFromDate;
  }

  // ---------- The invariant of a run ----------

  /** Workbook `i` is the last before another date replaces date `d`. */
  predicate ReplacedAt(bs: seq<Workbook>, i: nat, d: string)
    requires i + 1 < |bs|
  {
    DateOfBook(bs[i]) == d && DateOfBook(bs[i + 1]) != d
  }

  /** Among the first `k` workbooks another date has replaced `d`. */
  ghost predicate WasReplaced(bs: seq<Workbook>, k: nat, d: string)
    requires k <= |bs|
  {
    exists i: nat :: i < k - 1 && ReplacedAt(bs, i, d)
  }

  /** Dated tables exist exactly for the dates that were replaced. */
  ghost predicate DatedExactly(db: Tables, bs: seq<Workbook>, k: nat)
    requires k <= |bs|
  {
    forall d: string :: IsStampDate(d) ==>
      (TableFromDate("DATA_TITLES", d) in db <==> WasReplaced(bs, k, d)) &&
      (TableFromDate("STOCK_DATA", d) in db <==> WasReplaced(bs, k, d))
  }

  ghost predicate RunInv(bs: seq<Workbook>, k: nat)
    requires 1 <= k <= |bs|
  {
    var db := DbAt(bs, k);
    Good(db) && TITLES in db && STOCK in db && LAST in db &&
    db[LAST] == LastTable(StampOf(bs[k - 1]).0, StampOf(bs[k - 1]).1) && DatedExactly(db, bs, k)
  }

  lemma ReplacedNext(bs: seq<Workbook>, k: nat, d: string)
    requires 1 <= k < |bs|
    ensures WasReplaced(bs, k + 1, d) <==> WasReplaced(bs, k, d) || ReplacedAt(bs, k - 1, d)
  {
    if ReplacedAt(bs, k - 1, d) { assert k - 1 < (k + 1) - 1; }
  }

  /** Storing a workbook adds no dated table. */
  lemma StoredAddsNoDate(db: Tables, b: Workbook, id: string, d: string)
    requires WellFormed(b)
    ensures TableFromDate(id, d) in Stored(db, b) <==> TableFromDate(id, d) in db
  {
    hide TableFromDate, WellFormed, TitlesTable, StockTable, LastTable;
    DatedNamesAreNotCurrent(id, d);
  }

  /** The tables on which the rest of Update works after the comparison. */
  function Compared(db: Tables, last: (string, string), date: string): Tables
    requires ARCHIVE in db && TITLES in db && STOCK in db
  {
    if last.0 == date || TableFromDate("STOCK_DATA", last.0) in db then db else RotatedFully(db, last.0, last.1)
  }

  /** What the comparison with LAST_UPDATE does in a run. */
  lemma CheckInRun(db: Tables, last: (string, string), date: string, time: string)
    requires Good(db) && TITLES in db && STOCK in db && LAST in db && db[LAST] == LastTable(last.0, last.1)
    requires TableFromDate("DATA_TITLES", last.0) in db <==> TableFromDate("STOCK_DATA", last.0) in db
    ensures var c := CheckFree(db, date, time);
            if last == (date, time) then c == Same else c.Proceed? && c.db == Compared(db, last, date)
  {
    LastCells(last.0, last.1);
    assert LastTable(last.0, last.1).columns == ["date", "time"];
    assert ["date", "time"][0] == "date" && ["date", "time"][1] == "time";
    if TableFromDate("STOCK_DATA", last.0) in db {
      NoSecondRotation(NoFaults(), db, 1, last.0, last.1);
    } else {
      RotationSucceeds(NoFaults(), db, 1, last.0, last.1);
    }
    hide TryAll, RotationStatements, RotatedFully, Good, TableFromDate;
  }

  lemma ComparedDates(db: Tables, bs: seq<Workbook>, k: nat)
    requires 1 <= k < |bs| && ARCHIVE in db && TITLES in db && STOCK in db && DatedExactly(db, bs, k)
    ensures DatedExactly(Compared(db, StampOf(bs[k - 1]), DateOfBook(bs[k])), bs, k + 1)
  {
    var last := StampOf(bs[k - 1]);
    var mid := Compared(db, last, DateOfBook(bs[k]));
    assert last.0 == DateOfBook(bs[k - 1]);
    hide TableFromDate, DateOfBook, IsStampDate, WasReplaced, RotatedFully;
    LastIsStampDate(bs, k);
    forall d: string | IsStampDate(d)
      ensures TableFromDate("DATA_TITLES", d) in mid <==> WasReplaced(bs, k + 1, d)
      ensures TableFromDate("STOCK_DATA", d) in mid <==> WasReplaced(bs, k + 1, d)
    {
      ReplacedNext(bs, k, d);
      RotatedDate(db, last.0, last.1, d);
    }
  }

  /** A rotation adds the two tables of its date and no other dated table. */
  lemma RotatedDate(db: Tables, date: string, time: string, d: string)
    requires ARCHIVE in db && TITLES in db && STOCK in db && IsStampDate(date) && IsStampDate(d)
    ensures var mid := RotatedFully(db, date, time);
            (TableFromDate("DATA_TITLES", d) in mid <==> TableFromDate("DATA_TITLES", d) in db || d == date) &&
            (TableFromDate("STOCK_DATA", d) in mid <==> TableFromDate("STOCK_DATA", d) in db || d == date)
  {
    hide TableFromDate, IsStampDate;
    DatedNamesAreNotCurrent("DATA_TITLES", d);
    DatedNamesAreNotCurrent("STOCK_DATA", d);
    TitlesAndStockDiffer(d, date);
    TitlesAndStockDiffer(date, d);
    if TableFromDate("DATA_TITLES", d) == TableFromDate("DATA_TITLES", date) { TableFromDateInjective(true, d, true, date); }
    if TableFromDate("STOCK_DATA", d) == TableFromDate("STOCK_DATA", date) { TableFromDateInjective(false, d, false, date); }
  }

  lemma LastIsStampDate(bs: seq<Workbook>, k: nat)
    requires 1 <= k <= |bs|
    ensures IsStampDate(DateOfBook(bs[k - 1]))
  {
    StampFromIsStampDate(bs[k - 1], 0, "", "");
  }

  lemma StoredDates(db: Tables, bs: seq<Workbook>, k: nat)
    requires 1 <= k <= |bs| && WellFormed(bs[k - 1]) && DatedExactly(db, bs, k)
    ensures DatedExactly(Stored(db, bs[k - 1]), bs, k)
  {
    hide TableFromDate, WellFormed, IsStampDate, Stored, WasReplaced;
    forall d: string | IsStampDate(d)
      ensures TableFromDate("DATA_TITLES", d) in Stored(db, bs[k - 1]) <==> WasReplaced(bs, k, d)
      ensures TableFromDate("STOCK_DATA", d) in Stored(db, bs[k - 1]) <==> WasReplaced(bs, k, d)
    {
      StoredAddsNoDate(db, bs[k - 1], "DATA_TITLES", d);
      StoredAddsNoDate(db, bs[k - 1], "STOCK_DATA", d);
    }
  }

  lemma StoredShape(db: Tables, b: Workbook)
    requires WellFormed(b)
    ensures var s := Stored(db, b);
            TITLES in s && STOCK in s && LAST in s && s[LAST] == LastTable(StampOf(b).0, StampOf(b).1)
  {
    hide WellFormed, TitlesTable, StockTable, LastTable, StampOf;
  }

  lemma InitialHasNoDates(bs: seq<Workbook>)
    requires |bs| >= 1
    ensures DatedExactly(INITIAL, bs, 1)
  {
    hide TableFromDate;
    forall d: string
      ensures TableFromDate("DATA_TITLES", d) !in INITIAL && TableFromDate("STOCK_DATA", d) !in INITIAL
    {
      DatedNamesAreNotCurrent("DATA_TITLES", d);
      DatedNamesAreNotCurrent("STOCK_DATA", d);
    }
  }

  lemma {:induction false} FirstUpdate(bs: seq<Workbook>)
    requires |bs| >= 1 && WellDated(bs[0])
    ensures DbAt(bs, 1) == Stored(INITIAL, bs[0]) && RunInv(bs, 1)
  {
    var b := bs[0];
    assert LAST !in INITIAL by { CurrentTablesDiffer(); }
    assert CheckFree(INITIAL, StampOf(b).0, StampOf(b).1).Proceed?;
    assert CheckFree(INITIAL, StampOf(b).0, StampOf(b).1).db == INITIAL;
    assert DbAt(bs, 1) == Step(INITIAL, Event(Some(b), NoFaults(), 0)) by { assert DbAt(bs, 0) == INITIAL; }
    hide WellFormed, CheckFree, UpdateOutcome, Stored, Good, DatedExactly, StampOf, LastTable, DbAt;
    InitialIsGood();
    StepKeepsGood(INITIAL, Event(Some(b), NoFaults(), 0));
    WellFormedUpdate(b, INITIAL, 0);
    StoredShape(INITIAL, b);
    InitialHasNoDates(bs);
    StoredDates(INITIAL, bs, 1);
  }

  /** The tables after the next workbook, given the invariant. */
  lemma NextUpdate(bs: seq<Workbook>, k: nat)
    requires 1 <= k < |bs| && AllWellDated(bs) && RunInv(bs, k)
    ensures var db, last, b := DbAt(bs, k), StampOf(bs[k - 1]), bs[k];
            TITLES in db && STOCK in db && ARCHIVE in db &&
            DbAt(bs, k + 1) == if last == StampOf(b) then db else Stored(Compared(db, last, StampOf(b).0), b)
  {
    assert WellDated(bs[k]);
    var db, last, b := DbAt(bs, k), StampOf(bs[k - 1]), bs[k];
    LastIsStampDate(bs, k);
    CheckInRun(db, last, StampOf(b).0, StampOf(b).1);
    WellFormedUpdate(b, db, 0);
    hide StampOf, CheckFree, UpdateOutcome, WellFormed, Stored, Compared, Good, TableFromDate, LastTable, WasReplaced;
  }

  lemma {:induction false} RunKeepsInv(bs: seq<Workbook>, k: nat)
    requires 1 <= k <= |bs| && AllWellDated(bs)
    ensures RunInv(bs, k)
  {
    hide RunInv, WellFormed;
    if k == 1 {
      FirstUpdate(bs);
    } else {
      RunKeepsInv(bs, k - 1);
      BookKeepsInv(bs, k - 1);
    }
  }

  lemma SameStampSameDates(bs: seq<Workbook>, k: nat)
    requires 1 <= k < |bs| && DateOfBook(bs[k - 1]) == DateOfBook(bs[k])
    ensures forall db: Tables :: DatedExactly(db, bs, k) ==> DatedExactly(db, bs, k + 1)
  {
    hide TableFromDate, DateOfBook, IsStampDate, WasReplaced;
    forall d: string
      ensures WasReplaced(bs, k + 1, d) <==> WasReplaced(bs, k, d)
    {
      ReplacedNext(bs, k, d);
    }
  }

  lemma {:induction false} NextIsGood(bs: seq<Workbook>, k: nat)
    requires 1 <= k < |bs| && RunInv(bs, k)
    ensures Good(DbAt(bs, k + 1))
  {
    hide Good, Step;
    StepKeepsGood(DbAt(bs, k), Event(Some(bs[k]), NoFaults(), 0));
  }

  lemma StoredNextDates(db: Tables, bs: seq<Workbook>, k: nat)
    requires 1 <= k < |bs| && WellFormed(bs[k]) && ARCHIVE in db && TITLES in db && STOCK in db
    requires DatedExactly(db, bs, k)
    ensures DatedExactly(Stored(Compared(db, StampOf(bs[k - 1]), DateOfBook(bs[k])), bs[k]), bs, k + 1)
  {
    hide Stored, StampOf, DateOfBook, DatedExactly, WellFormed, Compared;
    ComparedDates(db, bs, k);
    StoredDates(Compared(db, StampOf(bs[k - 1]), DateOfBook(bs[k])), bs, k + 1);
  }

  lemma {:induction false} BookKeepsDates(bs: seq<Workbook>, k: nat)
    requires 1 <= k < |bs| && AllWellDated(bs) && RunInv(bs, k)
    ensures DatedExactly(DbAt(bs, k + 1), bs, k + 1)
  {
    assert WellDated(bs[k]);
    assert DateOfBook(bs[k]) == StampOf(bs[k]).0 && StampOf(bs[k - 1]).0 == DateOfBook(bs[k - 1]);
    hide Good, Stored, LastTable, StampOf, DateOfBook, DatedExactly, WellFormed, DbAt, Compared;
    NextUpdate(bs, k);
    if StampOf(bs[k - 1]) == StampOf(bs[k]) {
      SameStampSameDates(bs, k);
    } else {
      StoredNextDates(DbAt(bs, k), bs, k);
    }
  }

  lemma BookKeepsStamp(bs: seq<Workbook>, k: nat)
    requires 1 <= k < |bs| && AllWellDated(bs) && RunInv(bs, k)
    ensures var db := DbAt(bs, k + 1);
            TITLES in db && STOCK in db && LAST in db && db[LAST] == LastTable(StampOf(bs[k]).0, StampOf(bs[k]).1)
  {
    assert WellDated(bs[k]);
    NextUpdate(bs, k);
    hide Good, Stored, LastTable, StampOf, DatedExactly, WellFormed, DbAt, Compared;
    StoredShape(Compared(DbAt(bs, k), StampOf(bs[k - 1]), StampOf(bs[k]).0), bs[k]);
  }

  lemma BookKeepsInv(bs: seq<Workbook>, k: nat)
    requires 1 <= k < |bs| && AllWellDated(bs) && RunInv(bs, k)
    ensures RunInv(bs, k + 1)
  {
    hide AllWellDated, DbAt, Good, StampOf, LastTable, DatedExactly;
    NextIsGood(bs, k);
    BookKeepsDates(bs, k);
    BookKeepsStamp(bs, k);
  }

  // ---------- Completeness ----------

  /** A request spells a date with dashes. */
  function DateId(date: string): string {
    Replace(date, '/', '-')
  }

  lemma DateIdReadsBack(d: string)
    requires IsStampDate(d)
    ensures Replace(DateId(d), '-', '/') == d
  {
    if d != "" {
      SlashesOfADate(d);
      assert '-' !in d by { NoDash(d); }
      hide IsNormal;
      assert Replace(DateId(d), '-', '/') == d;
    }
  }

  lemma NoDash(d: string)
    requires IsNormal(DateStamp, d)
    ensures '-' !in d
  {
    assert forall i :: 0 <= i < |d| ==> d[i] != '-';
  }

  /** What the tables after a rotation still show of it. */
  ghost predicate ShowsRotation(db: Tables, after: Tables, date: string, time: string)
    requires ARCHIVE in db && TITLES in db && STOCK in db
  {
    var titles, stock := TableFromDate("DATA_TITLES", date), TableFromDate("STOCK_DATA", date);
    titles in after && stock in after && ARCHIVE in after &&
    after[titles] == db[TITLES] && after[stock] == db[STOCK] &&
    after[ARCHIVE] == db[ARCHIVE].(rows := db[ARCHIVE].rows + [Row(NextRowId(db[ARCHIVE].rows), EntryFor(date, time))])
  }

  /** After the rotation the dated tables answer as the current ones did before. */
  lemma RotatedAnswers(db: Tables, after: Tables, date: string, time: string)
    requires Good(db) && TITLES in db && STOCK in db && IsStampDate(date) && ShowsRotation(db, after, date, time)
    requires TableFromDate("DATA_TITLES", date) !in db
    ensures DataByDate(after, DateId(date)) == ReadPair(db, TITLES, STOCK, date, time)
  {
    var titles, stock := TableFromDate("DATA_TITLES", date), TableFromDate("STOCK_DATA", date);
    var rows, row := db[ARCHIVE].rows, Row(NextRowId(db[ARCHIVE].rows), EntryFor(date, time));
    DateIdReadsBack(date);
    EntryCells(date, time);
    NewDateIsFound(db, date, time);
    assert db[ARCHIVE].columns == ARCHIVE_COLUMNS;
    hide Good, TableFromDate, EntryFor, FindDate, DateId, NextRowId, IsStampDate, ReadPair;
    assert Select(after, ARCHIVE, ARCHIVE_COLUMNS) == Some(rows + [row]);
    SamePair(db, TITLES, STOCK, after, titles, stock, date, time);
  }

  lemma SamePair(db: Tables, titles: string, stock: string, db': Tables, titles': string, stock': string,
                 date: string, time: string)
    requires titles in db && titles' in db' && db'[titles'] == db[titles]
    requires stock in db && stock' in db' && db'[stock'] == db[stock]
    ensures ReadPair(db', titles', stock', date, time) == ReadPair(db, titles, stock, date, time)
  {
    hide ReadTitles, ReadRows, Carried;
  }

  lemma {:induction false} NewDateIsFound(db: Tables, date: string, time: string)
    requires Good(db) && TableFromDate("DATA_TITLES", date) !in db
    ensures var rows, row := db[ARCHIVE].rows, Row(NextRowId(db[ARCHIVE].rows), EntryFor(date, time));
            FindDate(rows + [row], date) == Some(row)
  {
    hide TableFromDate, EntryFor, NextRowId;
    EntryCells(date, time);
    var rows, row := db[ARCHIVE].rows, Row(NextRowId(db[ARCHIVE].rows), EntryFor(date, time));
    forall r | r in rows
      ensures CellText(r, "date") != date
    {
      var i :| 0 <= i < |rows| && rows[i] == r;
      assert GoodEntry(db, rows[i]);
    }
    FindIsSound(rows, date);
    FindAppended(rows, row, date);
  }

  lemma RotatedShape(db: Tables, date: string, time: string)
    requires Good(db) && TITLES in db && STOCK in db
    ensures ShowsRotation(db, RotatedFully(db, date, time), date, time)
  {
    hide TableFromDate, EntryFor;
    CurrentTablesDiffer();
    TitlesAndStockDiffer(date, date);
    DatedNamesAreNotCurrent("DATA_TITLES", date);
    DatedNamesAreNotCurrent("STOCK_DATA", date);
  }

  /** Writing the current tables hides nothing of it. */
  lemma RotationStays(db: Tables, after: Tables, after': Tables, date: string, time: string)
    requires ARCHIVE in db && TITLES in db && STOCK in db && ShowsRotation(db, after, date, time)
    requires forall t <- after :: t !in {LAST, TITLES, STOCK} ==> t in after' && after'[t] == after[t]
    ensures ShowsRotation(db, after', date, time)
  {
    hide TableFromDate, EntryFor;
    CurrentTablesDiffer();
    DatedNamesAreNotCurrent("DATA_TITLES", date);
    DatedNamesAreNotCurrent("STOCK_DATA", date);
  }

  lemma StoredShows(db: Tables, b: Workbook, date: string, time: string)
    requires Good(db) && TITLES in db && STOCK in db && WellFormed(b)
    ensures ShowsRotation(db, Stored(RotatedFully(db, date, time), b), date, time)
  {
    RotatedShape(db, date, time);
    var mid := RotatedFully(db, date, time);
    assert forall t <- mid :: t !in {LAST, TITLES, STOCK} ==> t in Stored(mid, b) && Stored(mid, b)[t] == mid[t];
    hide WellFormed, Stored, RotatedFully, ShowsRotation, Good;
    RotationStays(db, mid, Stored(mid, b), date, time);
  }

  lemma {:induction false} LatestInRun(bs: seq<Workbook>, k: nat)
    requires 1 <= k <= |bs| && RunInv(bs, k)
    ensures var db := DbAt(bs, k);
            LatestData(db) == ReadPair(db, TITLES, STOCK, StampOf(bs[k - 1]).0, StampOf(bs[k - 1]).1)
  {
    var (date, time) := StampOf(bs[k - 1]);
    LastCells(date, time);
    assert LastTable(date, time).columns == ["date", "time"];
    assert ["date", "time"][0] == "date" && ["date", "time"][1] == "time";
    hide ReadPair, StampOf, DbAt, Good, DatedExactly;
  }

  lemma {:induction false} AnswerPersists(bs: seq<Workbook>, i: nat, j: nat, dateId: string)
    requires i <= j <= |bs| && Good(DbAt(bs, i)) && DataByDate(DbAt(bs, i), dateId).Data?
    ensures Good(DbAt(bs, j)) && DataByDate(DbAt(bs, j), dateId) == DataByDate(DbAt(bs, i), dateId)
    decreases j
  {
    hide Good, Step, DataByDate;
    if i < j {
      AnswerPersists(bs, i, j - 1, dateId);
      var e := Event(Some(bs[j - 1]), NoFaults(), 0);
      StepKeepsGood(DbAt(bs, j - 1), e);
      AnswersNeverChange(DbAt(bs, j - 1), [e], dateId);
      var one := [e];
      assert one[0] == e && one[1..] == [];
      assert RunUpdates(DbAt(bs, j - 1), one) == RunUpdates(Step(DbAt(bs, j - 1), e), one[1..]);
    }
  }

  /** Over any run of well-formed workbooks, asking for a date at any point after its first replacement gives
      exactly the time, titles and data that GetLatestData returned just before that replacement. */
  lemma ArchiveShowsFirst(bs: seq<Workbook>, i: nat, j: nat, d: string)
    requires AllWellDated(bs) && i + 1 < j <= |bs| && ReplacedAt(bs, i, d) && !WasReplaced(bs, i + 1, d)
    ensures DataByDate(DbAt(bs, j), DateId(d)) == LatestData(DbAt(bs, i + 1))
    ensures LatestData(DbAt(bs, i + 1)).Data? && LatestData(DbAt(bs, i + 1)).content.date == d
  {
    hide DbAt, RunInv, Good, LatestData, DataByDate, DateId, WasReplaced, WellDated;
    RunKeepsInv(bs, i + 1);
    FirstReplacementShows(bs, i, d);
    GoodInRun(bs, i + 2);
    AnswerPersists(bs, i + 2, j, DateId(d));
  }

  lemma {:induction false} GoodInRun(bs: seq<Workbook>, k: nat)
    requires AllWellDated(bs) && 1 <= k <= |bs|
    ensures Good(DbAt(bs, k))
  {
    RunKeepsInv(bs, k);
    hide DbAt, Good, WellDated, DatedExactly;
  }

  /** In a run a date that was never replaced has no dated tables. */
  lemma {:induction false} FreshInRun(bs: seq<Workbook>, k: nat, d: string)
    requires 1 <= k <= |bs| && RunInv(bs, k) && IsStampDate(d) && !WasReplaced(bs, k, d)
    ensures TableFromDate("DATA_TITLES", d) !in DbAt(bs, k) && TableFromDate("STOCK_DATA", d) !in DbAt(bs, k)
  {
    hide DbAt, Good, LastTable, StampOf, IsStampDate, WasReplaced, TableFromDate;
  }

  /** Directly after the first replacement of a date. */
  lemma {:induction false} FirstReplacementShows(bs: seq<Workbook>, i: nat, d: string)
    requires i + 1 < |bs| && AllWellDated(bs) && ReplacedAt(bs, i, d) && !WasReplaced(bs, i + 1, d) && RunInv(bs, i + 1)
    ensures DataByDate(DbAt(bs, i + 2), DateId(d)) == LatestData(DbAt(bs, i + 1))
    ensures LatestData(DbAt(bs, i + 1)).Data? && LatestData(DbAt(bs, i + 1)).content.date == d
  {
    hide *;
    FirstReplacementTables(bs, i, d);
    LatestInRun(bs, i + 1);
    StoredShows(DbAt(bs, i + 1), bs[i + 1], d, StampOf(bs[i]).1);
    RotatedAnswers(DbAt(bs, i + 1), DbAt(bs, i + 2), d, StampOf(bs[i]).1);
    CurrentPairIsReadable(DbAt(bs, i + 1), d, StampOf(bs[i]).1);
  }

  /** The tables directly after the first replacement of a date. */
  lemma {:induction false} FirstReplacementTables(bs: seq<Workbook>, i: nat, d: string)
    requires i + 1 < |bs| && AllWellDated(bs) && ReplacedAt(bs, i, d) && !WasReplaced(bs, i + 1, d) && RunInv(bs, i + 1)
    ensures StampOf(bs[i]).0 == d && IsStampDate(d) && WellFormed(bs[i + 1])
    ensures var db := DbAt(bs, i + 1);
            Good(db) && ARCHIVE in db && TITLES in db && STOCK in db &&
            TableFromDate("DATA_TITLES", d) !in db && TableFromDate("STOCK_DATA", d) !in db &&
            DbAt(bs, i + 2) == Stored(RotatedFully(db, d, StampOf(bs[i]).1), bs[i + 1])
  {
    hide *;
    ReplacedStamps(bs, i, d);
    RunInvShape(bs, i + 1);
    BookIsWellFormed(bs, i + 1);
    ComparedFresh(DbAt(bs, i + 1), StampOf(bs[i]), StampOf(bs[i + 1]).0) by { FreshInRun(bs, i + 1, d); }
    NextUpdate(bs, i + 1);
    LastIsStampDate(bs, i + 1);
    FreshInRun(bs, i + 1, d);
  }

  lemma ReplacedStamps(bs: seq<Workbook>, i: nat, d: string)
    requires i + 1 < |bs| && ReplacedAt(bs, i, d)
    ensures StampOf(bs[i]).0 == d && StampOf(bs[i + 1]).0 != d && IsStampDate(d)
  {
    LastIsStampDate(bs, i + 1);
    hide StampOf, IsStampDate;
  }

  lemma {:induction false} RunInvShape(bs: seq<Workbook>, k: nat)
    requires 1 <= k <= |bs| && RunInv(bs, k)
    ensures Good(DbAt(bs, k)) && ARCHIVE in DbAt(bs, k) && TITLES in DbAt(bs, k) && STOCK in DbAt(bs, k)
  {
    hide DbAt, StampOf, LastTable, DatedExactly;
  }

  lemma BookIsWellFormed(bs: seq<Workbook>, i: nat)
    requires i < |bs| && AllWellDated(bs)
    ensures WellFormed(bs[i])
  {
    assert WellDated(bs[i]);
    hide WellFormed;
  }

  lemma ComparedFresh(db: Tables, last: (string, string), date: string)
    requires ARCHIVE in db && TITLES in db && STOCK in db && last.0 != date && TableFromDate("STOCK_DATA", last.0) !in db
    ensures Compared(db, last, date) == RotatedFully(db, last.0, last.1)
  {
    hide RotatedFully, TableFromDate;
  }

  /** A date that was never replaced is not found. */
  lemma {:induction false} NeverReplacedIsNotFound(bs: seq<Workbook>, j: nat, d: string)
    requires AllWellDated(bs) && 1 <= j <= |bs| && IsStampDate(d) && !WasReplaced(bs, j, d)
    ensures DataByDate(DbAt(bs, j), DateId(d)) == NotFound
  {
    RunKeepsInv(bs, j);
    var db := DbAt(bs, j);
    DataByDateIsTotal(db, DateId(d));
    DateIdReadsBack(d);
    hide TableFromDate, DateId, IsStampDate, DbAt, WasReplaced;
    forall r | r in db[ARCHIVE].rows
      ensures CellText(r, "date") != d
    {
      var i :| 0 <= i < |db[ARCHIVE].rows| && db[ARCHIVE].rows[i] == r;
      assert GoodEntry(db, db[ARCHIVE].rows[i]);
    }
  }

  lemma {:induction false} FirstReplacement(bs: seq<Workbook>, k: nat, d: string) returns (i: nat)
    requires k <= |bs| && WasReplaced(bs, k, d)
    ensures i + 1 < k && ReplacedAt(bs, i, d) && !WasReplaced(bs, i + 1, d)
    decreases k
  {
    i :| i < k - 1 && ReplacedAt(bs, i, d);
    if WasReplaced(bs, i + 1, d) { i := FirstReplacement(bs, i + 1, d); }
  }

  /** The exact condition without faults: what is shown under a date when it is replaced can be asked for ever
      after if and only if the date was not replaced before, or its former archive happens to be the same. */
  lemma KeptExactlyWhenFirst(bs: seq<Workbook>, k: nat, j: nat, d: string)
    requires AllWellDated(bs) && k + 1 < j <= |bs| && ReplacedAt(bs, k, d)
    ensures DataByDate(DbAt(bs, j), DateId(d)) == LatestData(DbAt(bs, k + 1)) <==>
              !WasReplaced(bs, k + 1, d) || DataByDate(DbAt(bs, k + 1), DateId(d)) == LatestData(DbAt(bs, k + 1))
  {
    hide DbAt, DateId, DataByDate, LatestData, AllWellDated, ReplacedAt;
    if WasReplaced(bs, k + 1, d) {
      var i := FirstReplacement(bs, k + 1, d);
      ArchiveShowsFirst(bs, i, k + 1, d);
      ArchiveShowsFirst(bs, i, j, d);
    } else {
      ArchiveShowsFirst(bs, k, j, d);
    }
  }

  /** For every date replaced in a run in which no replaced date comes back, asking for it at any later point
      gives exactly the time, titles and data that GetLatestData returned just before it was replaced. */
  lemma ArchiveIsComplete(bs: seq<Workbook>, i: nat, j: nat)
    requires AllWellDated(bs) && NeverReturns(bs)
    requires i + 1 < j <= |bs| && DateOfBook(bs[i]) != DateOfBook(bs[i + 1])
    ensures DataByDate(DbAt(bs, j), DateId(DateOfBook(bs[i]))) == LatestData(DbAt(bs, i + 1))
    ensures LatestData(DbAt(bs, i + 1)).Data? && LatestData(DbAt(bs, i + 1)).content.date == DateOfBook(bs[i])
  {
    hide DbAt, DateId, DataByDate, LatestData, WellFormed, DateOfBook;
    var d := DateOfBook(bs[i]);
    forall m: nat | m < i
      ensures !ReplacedAt(bs, m, d)
    {
    }
    ArchiveShowsFirst(bs, i, j, d);
  }

  lemma CurrentPairIsReadable(db: Tables, date: string, time: string)
    requires Good(db) && TITLES in db && STOCK in db
    ensures ReadPair(db, TITLES, STOCK, date, time).Data?
    ensures ReadPair(db, TITLES, STOCK, date, time).content.date == date
  {
    hide ReadTitles, ReadRows, Carried;
  }
}
