/** Workbooks whose date cell does not come first: two inputs that show what goes wrong then. */
module LateStamp {
  import opened Text
  import opened Database
  import opened DbTables
  import opened Stamp
  import opened Ingest
  import opened DataService
  import opened Archive
  import opened Atomicity
  import opened Fidelity
  import opened Completeness
  import opened Returning

  /** The update that stores the smallest workbook of date `d`, and the tables it leaves. */
  function Stores(d: string): Event {
    Event(Some(Sample(d, "1")), NoFaults(), 0)
  }

  function After1(d: string): Tables {
    Step(INITIAL, Stores(d))
  }

  lemma After1Is(d: string)
    requires IsNormal(DateStamp, d)
    ensures var b, db := Sample(d, "1"), After1(d);
            WellFormed(b) && db == Stored(INITIAL, b) && Good(db) && TITLES in db && STOCK in db && LAST in db &&
            db[LAST] == LastTable(d, StampOf(b).1) &&
            TableFromDate("DATA_TITLES", d) !in db && TableFromDate("STOCK_DATA", d) !in db
    ensures LatestData(After1(d)) == Data(ContentOf(Sample(d, "1")))
  {
    var bs := [Sample(d, "1")];
    SampleIsWellFormed(d, "1");
    assert DateOfBook(bs[0]) == StampOf(bs[0]).0 == d && IsStampDate(d);
    assert !WasReplaced(bs, 1, d);
    hide Sample, IsNormal, WellFormed, Good, LatestData, ContentOf, Stored, StampOf, LastTable, WasReplaced, TableFromDate;
    FirstUpdate(bs);
    assert DbAt(bs, 1) == After1(d) by { assert DbAt(bs, 0) == INITIAL; }
    StoredReadsBack(bs[0], INITIAL);
  }

  /** The time read from a date text. */
  function TimeOf(e: string): string {
    Stamped(TimeStamp, e, "")
  }

  const DATE_CELL := Cell("A1", "s", Some(0), None)

  /** The plan from a last row that holds only the date cell. */
  lemma {:induction false} DateRowPlan(b: Workbook, e: string, l: Local)
    requires IsNormal(DateStamp, e) && |b.rows| == 2 && b.rows[1] == SheetRow(1, [DATE_CELL])
    requires b.sharedStrings != [] && b.sharedStrings[0] == e && l.time == ""
    ensures RowPlan(b, 1, l) == Check(e, TimeOf(e), FinalPlan(e, TimeOf(e)))
  {
    NormalIsFixed(DateStamp, e, l.date);
    hide Stamped, FinalPlan;
    var l' := l.(date := e, time := TimeOf(e));
    assert CellAction(b.sharedStrings, 1, DATE_CELL, 0, l) == Act(Compare(e, TimeOf(e)), l', true);
    assert CellPlan(b, 1, 0, l) == Check(e, TimeOf(e), RowPlan(b, 2, l'));
  }

  /** Comparing another date, rotating, and committing without a data row. */
  lemma {:induction false} RotateAndCommit(db: Tables, d: string, t: string, e: string)
    requires Good(db) && TITLES in db && STOCK in db && LAST in db && db[LAST] == LastTable(d, t) && d != e
    requires TableFromDate("DATA_TITLES", d) !in db && TableFromDate("STOCK_DATA", d) !in db
    ensures Execute0(db, Check(e, TimeOf(e), FinalPlan(e, TimeOf(e)))) ==
            Committed(RotatedFully(db, d, t)[LAST := LastTable(e, TimeOf(e))])
  {
    assert ARCHIVE in db;
    hide CheckFree, RotatedFully, LastTable, FinalPlan, TableFromDate, Good, TimeOf;
    CheckInRun(db, (d, t), e, TimeOf(e));
    LastIsStored(RotatedFully(db, d, t), e, TimeOf(e));
  }

  // ---------- Titles before the date ----------

  /** Row 2 before row 1. */
  function Swapped(e: string): Workbook {
    Workbook([e, "Open"], [SheetRow(2, [Cell("A2", "s", Some(1), None)]), SheetRow(1, [DATE_CELL])])
  }

  const OPEN_TABLE: Table := Table(["id", "title"], TextKey, [Row(1, CellsOf(["id", "title"], ["A2", "Open"]))])

  lemma SwappedPlan(e: string)
    requires IsNormal(DateStamp, e)
    ensures PlanOf(Swapped(e)) ==
            Do(DropTable(TITLES), Do(CreateTable(TITLES, DATA_TITLES_FIELDS),
               Do(Insert(TITLES, ["id", "title"], ["A2", "Open"]), Check(e, TimeOf(e), FinalPlan(e, TimeOf(e))))))
  {
    hide FinalPlan, TimeOf, IsNormal;
    var b := Swapped(e);
    var c := b.rows[0].cells[0];
    var l := START.(ids := ["A2"], fields := START.fields + [TextColumn("A2")]);
    assert CellAction(b.sharedStrings, 2, c, 0, START) == Act(Run(Insert(TITLES, ["id", "title"], ["A2", "Open"])), l, false);
    DateRowPlan(b, e, l);
    assert CellPlan(b, 0, 1, l) == RowPlan(b, 1, l);
    assert CellPlan(b, 0, 0, START) == Do(Insert(TITLES, ["id", "title"], ["A2", "Open"]), RowPlan(b, 1, l));
  }

  lemma {:induction false} TitlesReplaced(db: Tables, rest: Plan)
    ensures Execute0(db, Do(DropTable(TITLES), Do(CreateTable(TITLES, DATA_TITLES_FIELDS),
                         Do(Insert(TITLES, ["id", "title"], ["A2", "Open"]), rest)))) ==
            Execute0(db[TITLES := OPEN_TABLE], rest)
  {
    var empty := Table(["id", "title"], TextKey, []);
    DropApplies(db, TITLES);
    TitlesAreCreated(db);
    var db2 := db[TITLES := empty];
    InsertTitle(empty, "A2", "Open");
    assert [] + [Row(1, CellsOf(["id", "title"], ["A2", "Open"]))] == OPEN_TABLE.rows;
    InsertApplies(db2, TITLES, ["id", "title"], ["A2", "Open"], OPEN_TABLE);
    assert db2[TITLES := OPEN_TABLE] == db[TITLES := OPEN_TABLE];
    hide Apply, CellsOf;
    var insert := Do(Insert(TITLES, ["id", "title"], ["A2", "Open"]), rest);
    assert Execute0(db - {TITLES}, Do(CreateTable(TITLES, DATA_TITLES_FIELDS), insert)) == Execute0(db2, insert);
    assert Execute0(db2, insert) == Execute0(db[TITLES := OPEN_TABLE], rest);
  }

  lemma OpenTableReads()
    ensures ReadTitles(OPEN_TABLE.rows, 1) == ["Open"]
  {
    TitleCells("A2", "Open");
    hide CellsOf;
    ReadCompleteTitles(OPEN_TABLE.rows, 1);
  }

  lemma SampleTitles(d: string)
    requires IsNormal(DateStamp, d)
    ensures WellFormed(Sample(d, "1")) && ContentOf(Sample(d, "1")).titles == ["Close"]
  {
    SampleIsWellFormed(d, "1");
    assert TitleAt(Sample(d, "1"), 0) == "Close";
  }

  /** The tables on which the rotation works, and those it leaves. */
  function Mixed(d: string): Tables {
    After1(d)[TITLES := OPEN_TABLE]
  }

  lemma MixedIsGood(d: string)
    requires IsNormal(DateStamp, d)
    ensures var db := Mixed(d);
            Good(db) && TITLES in db && STOCK in db && LAST in db && db[LAST] == LastTable(d, StampOf(Sample(d, "1")).1) &&
            TableFromDate("DATA_TITLES", d) !in db && TableFromDate("STOCK_DATA", d) !in db
  {
    After1Is(d);
    CurrentTablesDiffer();
    CurrentIsNotDated();
    DatedNamesAreNotCurrent("DATA_TITLES", d);
    DatedNamesAreNotCurrent("STOCK_DATA", d);
    assert ["id", "title"][1] == "title";
    hide After1, Good, LastTable, Sample, StampOf, TableFromDate, CellsOf, IsNormal, IsDated, TableName;
    GoodIsKept(After1(d), Mixed(d));
  }

  lemma SwappedCommits(d: string, e: string)
    requires IsNormal(DateStamp, d) && IsNormal(DateStamp, e) && d != e
    ensures ARCHIVE in Mixed(d) && TITLES in Mixed(d) && STOCK in Mixed(d)
    ensures UpdateOutcome(NoFaults(), After1(d), 0, Some(Swapped(e))) ==
            Committed(RotatedFully(Mixed(d), d, StampOf(Sample(d, "1")).1)[LAST := LastTable(e, TimeOf(e))])
  {
    MixedIsGood(d);
    assert ARCHIVE in Mixed(d);
    hide After1, Good, LastTable, Sample, StampOf, TableFromDate, IsNormal, RotatedFully, FinalPlan, TimeOf, Execute0, ExecutePlan;
    SwappedPlan(e);
    NoFaultsNoClock(After1(d), 1, PlanOf(Swapped(e)));
    TitlesReplaced(After1(d), Check(e, TimeOf(e), FinalPlan(e, TimeOf(e))));
    RotateAndCommit(Mixed(d), d, StampOf(Sample(d, "1")).1, e);
  }

  lemma MixedAnswer(d: string, last: Table)
    requires IsNormal(DateStamp, d) && ARCHIVE in Mixed(d) && TITLES in Mixed(d) && STOCK in Mixed(d)
    ensures var after := RotatedFully(Mixed(d), d, StampOf(Sample(d, "1")).1)[LAST := last];
            DataByDate(after, DateId(d)).Data? && DataByDate(after, DateId(d)).content.titles == ["Open"]
  {
    var db, t := Mixed(d), StampOf(Sample(d, "1")).1;
    var after := RotatedFully(db, d, t)[LAST := last];
    MixedIsGood(d);
    assert IsStampDate(d) && db[TITLES] == OPEN_TABLE;
    hide Mixed, Good, LastTable, Sample, StampOf, TableFromDate, IsNormal, RotatedFully, ReadPair, DataByDate, ShowsRotation,
      DateId, IsStampDate, CellsOf, TableName;
    RotatedShape(db, d, t);
    RotationStays(db, RotatedFully(db, d, t), after, d, t);
    RotatedAnswers(db, after, d, t);
    OpenPairReads(db, d, t);
  }

  lemma OpenPairReads(db: Tables, date: string, time: string)
    requires TITLES in db && STOCK in db && db[TITLES] == OPEN_TABLE
    ensures ReadPair(db, TITLES, STOCK, date, time).Data?
    ensures ReadPair(db, TITLES, STOCK, date, time).content.titles == ["Open"]
  {
    OpenTableReads();
    assert OPEN_TABLE.columns[1] == "title";
    hide ReadTitles, ReadRows, CellsOf, Carried, TableName;
  }

  /** The run that stores first the one and then the other workbook. */
  function SwappedRun(d: string, e: string): (events: seq<Event>)
    ensures |events| == 2
  {
    [Stores(d), Event(Some(Swapped(e)), NoFaults(), 0)]
  }

  lemma SwappedRunEnds(d: string, e: string)
    requires IsNormal(DateStamp, d) && IsNormal(DateStamp, e) && d != e
    ensures ARCHIVE in Mixed(d) && TITLES in Mixed(d) && STOCK in Mixed(d)
    ensures RunUpdates(INITIAL, SwappedRun(d, e)) ==
            RotatedFully(Mixed(d), d, StampOf(Sample(d, "1")).1)[LAST := LastTable(e, TimeOf(e))]
  {
    SwappedCommits(d, e);
    var events := SwappedRun(d, e);
    assert events[1..] == [events[1]] && events[1..][1..] == [];
    hide Swapped, Sample, After1, Stores, RotatedFully, LastTable, UpdateOutcome, IsNormal;
    assert RunUpdates(INITIAL, events) == RunUpdates(After1(d), events[1..]);
    assert RunUpdates(After1(d), events[1..]) == RunUpdates(Step(After1(d), events[1]), []);
  }

  /** New titles stored before the rotation are archived under the former date: the answer for that date mixes
      two sheets and was never shown. */
  lemma {:induction false} LateStampMixesSheets(d: string, e: string)
    requires IsNormal(DateStamp, d) && IsNormal(DateStamp, e) && d != e
    ensures var events := SwappedRun(d, e);
            var answer := DataByDate(RunUpdates(INITIAL, events), DateId(d));
            answer.Data? && answer.content.titles == ["Open"] &&
            forall i: nat :: i < 2 ==> answer != LatestData(RunUpdates(INITIAL, events[..i]))
  {
    EarlierStates(d, e);
    hide Mixed, Sample, After1, SwappedRun, LatestData, DataByDate, RunUpdates, DateId, LastTable, RotatedFully, ContentOf,
      WellFormed, StampOf, Good, IsNormal;
    SwappedRunEnds(d, e);
    MixedAnswer(d, LastTable(e, TimeOf(e)));
    assert |"Open"| != |"Close"| && ["Open"][0] != ["Close"][0];
  }

  /** What was shown in that run: nothing, and then the titles of the first workbook. */
  lemma EarlierStates(d: string, e: string)
    requires IsNormal(DateStamp, d)
    ensures forall i: nat :: i < 2 ==>
              var shown := LatestData(RunUpdates(INITIAL, SwappedRun(d, e)[..i]));
              shown.Data? ==> shown.content.titles == ["Close"]
  {
    hide LatestData, RunUpdates, SwappedRun, After1, IsNormal;
    InitialFaults();
    After1Shows(d);
    forall i: nat | i < 2
      ensures RunUpdates(INITIAL, SwappedRun(d, e)[..i]) in {INITIAL, After1(d)}
    {
      EarlierState(d, e, i);
    }
  }

  lemma EarlierState(d: string, e: string, i: nat)
    requires i < 2
    ensures RunUpdates(INITIAL, SwappedRun(d, e)[..i]) in {INITIAL, After1(d)}
  {
    hide After1, Stores, Swapped;
    if i == 0 {
      assert SwappedRun(d, e)[..i] == [];
    } else {
      assert SwappedRun(d, e)[..i] == [Stores(d)];
      OneEvent(d);
    }
  }

  lemma After1Shows(d: string)
    requires IsNormal(DateStamp, d)
    ensures LatestData(After1(d)).Data? && LatestData(After1(d)).content.titles == ["Close"]
  {
    hide *;
    After1Is(d);
    SampleTitles(d);
  }

  lemma OneEvent(d: string)
    ensures RunUpdates(INITIAL, [Stores(d)]) == After1(d)
  {
    assert [Stores(d)][1..] == [];
  }

  lemma InitialFaults()
    ensures LatestData(INITIAL) == Fault
  {
    CurrentTablesDiffer();
  }

  /** Two dates for it. */
  lemma AnswerNeverShown()
    ensures var events := SwappedRun("1392/11/15", "1392/11/16");
            var answer := DataByDate(RunUpdates(INITIAL, events), DateId("1392/11/15"));
            answer.Data? && forall i: nat :: i < 2 ==> answer != LatestData(RunUpdates(INITIAL, events[..i]))
  {
    hide *;
    TwoDates();
    LateStampMixesSheets("1392/11/15", "1392/11/16");
  }

  // ---------- A data row before the date ----------

  /** Row 4 before row 1, and no row 3. */
  function DataRowFirst(e: string): Workbook {
    Workbook([e], [SheetRow(4, []), SheetRow(1, [DATE_CELL])])
  }

  lemma DataRowFirstPlan(e: string)
    requires IsNormal(DateStamp, e)
    ensures PlanOf(DataRowFirst(e)) ==
            Do(Insert(STOCK, ["r"], [IntToStr(4)]), Check(e, TimeOf(e), FinalPlan(e, TimeOf(e))))
  {
    hide FinalPlan, TimeOf, IsNormal, IntToStr;
    var b := DataRowFirst(e);
    DateRowPlan(b, e, START);
    assert CellPlan(b, 0, 0, START) == RowPlan(b, 1, START);
  }

  lemma RowFourIsInserted(t: Table)
    requires t.columns != [] && t.columns[0] == "r" && t.key == RowIdKey
    ensures Inserted(t, ["r"], [IntToStr(4)]).Some?
    ensures Inserted(t, ["r"], [IntToStr(4)]).value.columns == t.columns
  {
    hide InsertRow, IntToStr, StrToInt;
    IntRoundTrip(4);
    CellsOfDistinct(["r"], [IntToStr(4)]);
    assert ["r"][0] in CellsOf(["r"], [IntToStr(4)]);
  }

  /** The tables with row 4 in STOCK_DATA. */
  function WithRowFour(d: string): Tables
    requires STOCK in After1(d) && Inserted(After1(d)[STOCK], ["r"], [IntToStr(4)]).Some?
  {
    After1(d)[STOCK := Inserted(After1(d)[STOCK], ["r"], [IntToStr(4)]).value]
  }

  lemma RowFourIsGood(d: string)
    requires IsNormal(DateStamp, d)
    ensures STOCK in After1(d) && Inserted(After1(d)[STOCK], ["r"], [IntToStr(4)]).Some?
    ensures Apply(After1(d), Insert(STOCK, ["r"], [IntToStr(4)])) == Some(WithRowFour(d))
    ensures var db := WithRowFour(d);
            Good(db) && TITLES in db && STOCK in db && LAST in db && db[LAST] == LastTable(d, StampOf(Sample(d, "1")).1) &&
            TableFromDate("DATA_TITLES", d) !in db && TableFromDate("STOCK_DATA", d) !in db
  {
    After1Is(d);
    SampleStock(d);
    hide After1, Good, LastTable, Sample, StampOf, TableFromDate, IsNormal, TableName, IntToStr, StockTable, WellFormed;
    CurrentTablesDiffer();
    DatedNamesAreNotCurrent("DATA_TITLES", d);
    DatedNamesAreNotCurrent("STOCK_DATA", d);
    var s := Insert(STOCK, ["r"], [IntToStr(4)]);
    RowFourIsInserted(After1(d)[STOCK]);
    InsertApplies(After1(d), STOCK, s.names, s.values, Inserted(After1(d)[STOCK], s.names, s.values).value);
    CurrentStatementKeepsGood(After1(d), s);
  }

  lemma SampleStock(d: string)
    requires IsNormal(DateStamp, d)
    ensures STOCK in After1(d)
    ensures var t := After1(d)[STOCK]; t.columns != [] && t.columns[0] == "r" && t.key == RowIdKey
  {
    After1Is(d);
    CurrentTablesDiffer();
    var b := Sample(d, "1");
    assert |b.rows| == 3;
    hide After1, Sample, WellFormed, StampOf, TitlesTable, LastTable, TableName, StockRows;
    assert After1(d)[STOCK] == StockTable(b, |b.rows|);
  }

  /** Rotation takes STOCK_DATA away and no data row brings it back. */
  lemma RotatedWithoutStock(db: Tables, d: string, t: string, last: Table)
    requires ARCHIVE in db && TITLES in db && STOCK in db
    ensures STOCK !in RotatedFully(db, d, t)[LAST := last]
  {
    hide TableFromDate, EntryFor;
    CurrentTablesDiffer();
    DatedNamesAreNotCurrent("DATA_TITLES", d);
    DatedNamesAreNotCurrent("STOCK_DATA", d);
  }

  lemma DataRowFirstCommits(d: string, e: string)
    requires IsNormal(DateStamp, d) && IsNormal(DateStamp, e) && d != e
    ensures var first := UpdateOutcome(NoFaults(), After1(d), 0, Some(DataRowFirst(e)));
            first.Committed? && STOCK !in first.db
  {
    RowFourIsGood(d);
    var db, t := WithRowFour(d), StampOf(Sample(d, "1")).1;
    assert ARCHIVE in db;
    var rest := Check(e, TimeOf(e), FinalPlan(e, TimeOf(e)));
    hide After1, Good, LastTable, Sample, StampOf, TableFromDate, IsNormal, RotatedFully, FinalPlan, TimeOf, IntToStr,
      WithRowFour, DataRowFirst, CheckFree, Apply, ExecutePlan, PlanOf;
    DataRowFirstPlan(e);
    NoFaultsNoClock(After1(d), 1, PlanOf(DataRowFirst(e)));
    assert Execute0(After1(d), Do(Insert(STOCK, ["r"], [IntToStr(4)]), rest)) == Execute0(db, rest);
    RotateAndCommit(db, d, t, e);
    RotatedWithoutStock(db, d, t, LastTable(e, TimeOf(e)));
  }

  lemma DataRowFirstFails(e: string, g: Faults, db: Tables, m: nat)
    requires IsNormal(DateStamp, e) && STOCK !in db
    ensures UpdateOutcome(g, db, m, Some(DataRowFirst(e))) == Failed
  {
    hide FinalPlan, TimeOf, IsNormal, IntToStr, DataRowFirst, CheckStamp, PlanOf;
    DataRowFirstPlan(e);
  }

  /** A data row ahead of the date row inserts into tables that the rotation then takes away: the first Update
      commits, and the second ends in an exception before it compares, under any faults. */
  lemma SecondUpdateMayFail(d: string, e: string, g: Faults, m: nat)
    requires IsNormal(DateStamp, d) && IsNormal(DateStamp, e) && d != e
    ensures var first := UpdateOutcome(NoFaults(), After1(d), 0, Some(DataRowFirst(e)));
            first.Committed? && UpdateOutcome(g, first.db, m, Some(DataRowFirst(e))) == Failed
  {
    hide *;
    DataRowFirstCommits(d, e);
    DataRowFirstFails(e, g, UpdateOutcome(NoFaults(), After1(d), 0, Some(DataRowFirst(e))).db, m);
  }
}
