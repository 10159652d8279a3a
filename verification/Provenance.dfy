/** Where answers come from: over any run, whatever the faults, what is answered for a date was once shown. */
module Provenance {
  import opened Text
  import opened Database
  import opened DbTables
  import opened Stamp
  import opened Ingest
  import opened DataService
  import opened Archive
  import opened Atomicity
  import opened Completeness

  // ---------- Steps that leave the archive alone ----------

  lemma SameArchiveSameAnswers(db: Tables, db': Tables, dateId: string)
    requires Good(db) && SameArchive(db, db')
    ensures DataByDate(db', dateId) == DataByDate(db, dateId)
  {
    hide TableFromDate, Sorted, Apart, ReadRows, ReadTitles, Carried, FindDate;
    var rows, date := db[ARCHIVE].rows, Replace(dateId, '-', '/');
    FindIsSound(rows, date);
    if FindDate(rows, date).Some? {
      var r := FindDate(rows, date).value;
      var i :| 0 <= i < |rows| && rows[i] == r;
      assert GoodEntry(db, rows[i]);
      EntryTablesAreDated(db, r);
    }
  }

  lemma CurrentStatementKeepsArchive(db: Tables, s: Statement)
    requires Good(db) && TouchesCurrent(s) && Apply(db, s).Some?
    ensures Good(Apply(db, s).value) && SameArchive(db, Apply(db, s).value)
  {
    CurrentStatementKeepsGood(db, s);
    CurrentTablesDiffer();
    ApplyFrame(db, s, ARCHIVE);
  }

  /** Where nothing is compared nothing is archived. */
  lemma {:induction false} NoCheckKeepsArchive(f: Faults, db: Tables, n: nat, p: Plan)
    requires Good(db) && PlanTouchesCurrent(p) && NoCheck(p) && ExecutePlan(f, db, n, p).Committed?
    ensures SameArchive(db, ExecutePlan(f, db, n, p).db)
    decreases p
  {
    hide Apply, Good, Extends, TouchesCurrent;
    match p
    case Do(s, next) =>
      CurrentStatementKeepsArchive(db, s);
      var db1 := Execute(f, db, n, s).value;
      NoCheckKeepsArchive(f, db1, n + 1, next);
      ExtendsTransitive(db, db1, ExecutePlan(f, db, n, p).db);
    case Commit => ExtendsReflexive(db);
  }

  // ---------- The rotation ----------

  /** What an entry more changes: only the answer for its own date, if that was not found. */
  lemma {:induction false} EntryAnswers(db: Tables, row: Row, dateId: string)
    requires Good(db) && "date" in row.cells
    ensures var db' := db[ARCHIVE := db[ARCHIVE].(rows := db[ARCHIVE].rows + [row])];
            DataByDate(db', dateId) ==
            if DataByDate(db, dateId) == NotFound && row.cells["date"] == Replace(dateId, '-', '/')
            then ReadPair(db', Fetch(row, "datatitlestbl", ""), Fetch(row, "stockdatatbl", ""),
                          Fetch(row, "date", ""), Fetch(row, "time", ""))
            else DataByDate(db, dateId)
  {
    hide TableFromDate, Sorted, Apart, ReadRows, ReadTitles, Carried, FindDate;
    var rows, date := db[ARCHIVE].rows, Replace(dateId, '-', '/');
    FindIsSound(rows, date);
    FindAppended(rows, row, date);
    if FindDate(rows, date).Some? {
      var r := FindDate(rows, date).value;
      var i :| 0 <= i < |rows| && rows[i] == r;
      assert GoodEntry(db, rows[i]);
      EntryTablesAreDated(db, r);
    }
  }

  /** Once both renames went through, the entry answers with the tables they took. */
  lemma RecordAnswers(db: Tables, db2: Tables, date: string, time: string, dateId: string)
    requires Good(db) && Good(db2) && SameArchive(db, db2)
    requires var s := RotationStatements(date, time);
             Apply(db, s[0]).Some? && Apply(Apply(db, s[0]).value, s[1]) == Some(db2)
    ensures TITLES in db && STOCK in db
    ensures var db3 := Apply(db2, RotationStatements(date, time)[2]);
            db3.Some? && DataByDate(db3.value, dateId) in {DataByDate(db, dateId), ReadPair(db, TITLES, STOCK, date, time)}
  {
    RenamedPair(db, db2, date, time);
    hide Good, Extends, TableFromDate, EntryFor, ReadPair, DataByDate, NextRowId, RotationStatements, Apply;
    RecordKeepsGood(db, db2, date, time);
    SameArchiveSameAnswers(db, db2, dateId);
    var row := Row(NextRowId(db2[ARCHIVE].rows), EntryFor(date, time));
    EntryCells(date, time);
    EntryAnswers(db2, row, dateId);
    DatedNamesAreNotCurrent("DATA_TITLES", date);
    DatedNamesAreNotCurrent("STOCK_DATA", date);
    var titles, stock := TableFromDate("DATA_TITLES", date), TableFromDate("STOCK_DATA", date);
    var db3 := db2[ARCHIVE := db2[ARCHIVE].(rows := db2[ARCHIVE].rows + [row])];
    SamePair(db, TITLES, STOCK, db3, titles, stock, date, time);
  }

  /** However far the rotation gets, an answer is the former one, or what the current tables held. */
  lemma {:induction false} RotationAnswers(f: Faults, db: Tables, n: nat, date: string, time: string, dateId: string)
    requires Good(db)
    ensures var db' := TryAll(f, db, n, RotationStatements(date, time)).0;
            DataByDate(db', dateId) in {DataByDate(db, dateId), ReadPair(db, TITLES, STOCK, date, time)}
  {
    var s := RotationStatements(date, time);
    TryThree(f, db, n, s[0], s[1], s[2]);
    hide TableFromDate, TryAll, Good, Extends, DataByDate, ReadPair;
    CurrentTablesDiffer();
    DatedNamesAreNotCurrent("STOCK_DATA", date);
    DatedNamesAreNotCurrent("DATA_TITLES", date);
    var db1 := Execute(f, db, n, s[0]);
    if db1.Some? {
      RenameKeepsGood(db, STOCK, date);
      ApplyFrame(db, s[0], ARCHIVE);
      ArchiveIsThere(db);
      SameArchiveSameAnswers(db, db1.value, dateId);
      var db2 := Execute(f, db1.value, n + 1, s[1]);
      if db2.Some? {
        RenameKeepsGood(db1.value, TITLES, date);
        ApplyFrame(db1.value, s[1], ARCHIVE);
        ExtendsTransitive(db, db1.value, db2.value);
        SameArchiveSameAnswers(db, db2.value, dateId);
        RecordAnswers(db, db2.value, date, time, dateId);
      }
    }
  }

  lemma ArchiveIsThere(db: Tables)
    requires Good(db)
    ensures ARCHIVE in db
  {
  }

  lemma CheckAnswers(f: Faults, db: Tables, n: nat, date: string, time: string, dateId: string)
    requires Good(db) && CheckStamp(f, db, n, date, time).Proceed?
    ensures DataByDate(CheckStamp(f, db, n, date, time).db, dateId) in {DataByDate(db, dateId), LatestData(db)}
  {
    hide TryAll, RotationStatements, ReadPair, DataByDate, Good;
    var rows := if f(n) then None else Select(db, LAST, ["date", "time"]);
    if rows.Some? && rows.value != [] {
      RotationAnswers(f, db, n + 1, Fetch(rows.value[0], "date", ""), Fetch(rows.value[0], "time", ""), dateId);
    }
  }

  // ---------- Whole runs ----------

  /** Without STOCK_DATA a comparison changes nothing. */
  lemma {:induction false} CheckWithoutStock(f: Faults, db: Tables, n: nat, date: string, time: string)
    requires STOCK !in db && CheckStamp(f, db, n, date, time).Proceed?
    ensures CheckStamp(f, db, n, date, time).db == db
  {
    hide TableFromDate;
    var rows := if f(n) then None else Select(db, LAST, ["date", "time"]);
    if rows.Some? && rows.value != [] {
      var d, t := Fetch(rows.value[0], "date", ""), Fetch(rows.value[0], "time", "");
      var s := RotationStatements(d, t);
      TryThree(f, db, n + 1, s[0], s[1], s[2]);
      hide TryAll;
    }
  }

  /** A comparison leaves everything as it was or has taken STOCK_DATA away. */
  lemma {:induction false} CheckTakesStock(f: Faults, db: Tables, n: nat, date: string, time: string)
    requires CheckStamp(f, db, n, date, time).Proceed?
    ensures CheckStamp(f, db, n, date, time).db == db || STOCK !in CheckStamp(f, db, n, date, time).db
  {
    var rows := if f(n) then None else Select(db, LAST, ["date", "time"]);
    if rows.Some? && rows.value != [] {
      var d, t := Fetch(rows.value[0], "date", ""), Fetch(rows.value[0], "time", "");
      var s := RotationStatements(d, t);
      TryThree(f, db, n + 1, s[0], s[1], s[2]);
      CurrentTablesDiffer();
      DatedNamesAreNotCurrent("DATA_TITLES", d);
      DatedNamesAreNotCurrent("STOCK_DATA", d);
      hide TryAll, TableFromDate, TableName;
      if Execute(f, db, n + 1, s[0]).Some? {
        var db1 := Apply(db, s[0]).value;
        assert STOCK !in db1;
        if Execute(f, db1, n + 2, s[1]).Some? {
          var db2 := Apply(db1, s[1]).value;
          ApplyFrame(db1, s[1], STOCK);
          if Execute(f, db2, n + 3, s[2]).Some? { ApplyFrame(db2, s[2], STOCK); }
        }
      }
    }
  }

  /** Running a plan whose comparisons all come first: without STOCK_DATA no answer changes; with it an answer
      is the former one or what was shown. */
  lemma {:induction false} ComparesFirstAnswers(f: Faults, db: Tables, n: nat, p: Plan, dateId: string)
    requires Good(db) && PlanTouchesCurrent(p) && ComparesFirst(p) && ExecutePlan(f, db, n, p).Committed?
    ensures var answer := DataByDate(ExecutePlan(f, db, n, p).db, dateId);
            answer == DataByDate(db, dateId) || (STOCK in db && answer == LatestData(db))
    decreases p
  {
    hide Good, CheckStamp, DataByDate, LatestData;
    match p
    case Check(date, time, next) =>
      var c := CheckStamp(f, db, n, date, time);
      CheckKeepsGood(f, db, n, date, time);
      CheckAnswers(f, db, n, date, time, dateId);
      CheckTakesStock(f, db, n, date, time);
      if STOCK !in db { CheckWithoutStock(f, db, n, date, time); }
      ComparesFirstAnswers(f, c.db, c.n, next, dateId);
    case _ => PlainStep(f, db, n, p, dateId);
  }

  /** One Update, its workbook with no row above 1 ahead of a date cell. */
  lemma StepAnswers(db: Tables, e: Event, dateId: string)
    requires Good(db) && (e.book.Some? ==> DatesFirst(e.book.value))
    ensures DataByDate(Step(db, e), dateId) in {DataByDate(db, dateId), LatestData(db)}
  {
    hide Good, RowPlan, PlanTouchesCurrent, DataByDate, LatestData, ExecutePlan;
    var outcome := UpdateOutcome(e.faults, db, e.clock, e.book);
    if outcome.Committed? {
      var b := e.book.value;
      DatesFirstComparesFirst(b, 0, START);
      RowPlanTouchesCurrent(b, 0, START);
      ComparesFirstAnswers(e.faults, db, e.clock + 1, PlanOf(b), dateId);
    }
  }

  lemma {:induction false} PlainStep(f: Faults, db: Tables, n: nat, p: Plan, dateId: string)
    requires Good(db) && PlanTouchesCurrent(p) && NoCheck(p) && ExecutePlan(f, db, n, p).Committed?
    ensures DataByDate(ExecutePlan(f, db, n, p).db, dateId) == DataByDate(db, dateId)
  {
    hide ExecutePlan;
    NoCheckKeepsArchive(f, db, n, p);
    SameArchiveSameAnswers(db, ExecutePlan(f, db, n, p).db, dateId);
  }

  /** Over any run, with any faults, of workbooks in which no row above 1 stands ahead of a date cell: the
      answer for a date is the one before the run, or exactly what GetLatestData returned at some point of it. */
  lemma {:induction false} RunAnswersWereShown(db: Tables, events: seq<Event>, dateId: string)
    requires Good(db)
    requires forall e <- events :: e.book.Some? ==> DatesFirst(e.book.value)
    ensures var answer := DataByDate(RunUpdates(db, events), dateId);
            answer == DataByDate(db, dateId) ||
            exists i: nat :: i < |events| && answer == LatestData(RunUpdates(db, events[..i]))
    decreases |events|
  {
    hide Good, Step, DataByDate, LatestData, DatesFirst;
    if events != [] {
      assert events[0] in events;
      var db1, rest := Step(db, events[0]), events[1..];
      StepKeepsGood(db, events[0]);
      StepAnswers(db, events[0], dateId);
      RunAnswersWereShown(db1, rest, dateId);
      var answer := DataByDate(RunUpdates(db1, rest), dateId);
      if answer == LatestData(db) {
        assert events[..0] == [];
        assert answer == LatestData(RunUpdates(db, events[..0]));
      } else if answer != DataByDate(db, dateId) {
        var i: nat :| i < |rest| && answer == LatestData(RunUpdates(db1, rest[..i]));
        assert events[..i + 1][0] == events[0] && events[..i + 1][1..] == rest[..i];
        assert answer == LatestData(RunUpdates(db, events[..i + 1]));
      }
    }
  }

  lemma InitialFindsNothing(dateId: string)
    ensures DataByDate(INITIAL, dateId) == NotFound
  {
  }

  /** From the initial database on, all data ever answered for a date was once the latest data. */
  lemma {:induction false} AnswersWereShown(events: seq<Event>, dateId: string)
    requires forall e <- events :: e.book.Some? ==> DatesFirst(e.book.value)
    requires DataByDate(RunUpdates(INITIAL, events), dateId).Data?
    ensures exists i: nat :: i < |events| &&
              DataByDate(RunUpdates(INITIAL, events), dateId) == LatestData(RunUpdates(INITIAL, events[..i]))
  {
    hide RunUpdates, Good, DataByDate, LatestData, DatesFirst;
    InitialIsGood();
    InitialFindsNothing(dateId);
    RunAnswersWereShown(INITIAL, events, dateId);
  }
}
