/** What survives being replaced: the exact condition under which the data shown under a date can still be asked
    for after the next Update, whatever faults that Update meets and swallows. */
module Retention {
  import opened Text
  import opened Database
  import opened DbTables
  import opened Stamp
  import opened Ingest
  import opened DataService
  import opened Archive
  import opened Atomicity
  import opened Fidelity
  import opened Idempotence
  import opened Completeness
  import opened Returning
  import opened Provenance
  import opened LateStamp

  // ---------- States in which a workbook is stored ----------

  /** The stored stamp, with both current tables. */
  ghost predicate Holds(db: Tables, d: string, t: string) {
    Good(db) && TITLES in db && STOCK in db && LAST in db && db[LAST] == LastTable(d, t) && IsStampDate(d)
  }

  ghost predicate HoldsIfAny(db: Tables) {
    Good(db) && (LAST in db ==> exists d: string, t: string :: Holds(db, d, t))
  }

  /** Over any run of well-formed workbooks, with any faults, there is no stored stamp or a complete workbook. */
  lemma {:induction false} RunHolds(db: Tables, events: seq<Event>)
    requires HoldsIfAny(db) && forall e <- events :: e.book.Some? ==> WellFormed(e.book.value)
    ensures HoldsIfAny(RunUpdates(db, events))
    decreases |events|
  {
    hide HoldsIfAny, WellFormed, Step;
    if events != [] {
      assert events[0] in events;
      StepHolds(db, events[0]);
      RunHolds(Step(db, events[0]), events[1..]);
    }
  }

  lemma StepHolds(db: Tables, e: Event)
    requires HoldsIfAny(db) && (e.book.Some? ==> WellFormed(e.book.value))
    ensures HoldsIfAny(Step(db, e))
  {
    hide Good, WellFormed, UpdateOutcome, Holds;
    StepKeepsGood(db, e);
    if UpdateOutcome(e.faults, db, e.clock, e.book).Committed? {
      NoBookNoCommit(e, db);
      CommitHolds(e.faults, db, e.clock, e.book.value);
    }
  }

  lemma CommitHolds(f: Faults, db: Tables, n: nat, b: Workbook)
    requires WellFormed(b) && UpdateOutcome(f, db, n, Some(b)).Committed? && Good(UpdateOutcome(f, db, n, Some(b)).db)
    ensures Holds(UpdateOutcome(f, db, n, Some(b)).db, StampOf(b).0, StampOf(b).1)
  {
    CommittedUpdate(f, b, db, n);
    hide Good, WellFormed, UpdateOutcome, Stored, StampOf, LastTable, IsStampDate, FirstRow;
    StoredShape(FirstRow(f, db, n + 1, b).db, b);
    StampIsStampDate(b);
  }

  lemma NoBookNoCommit(e: Event, db: Tables)
    requires UpdateOutcome(e.faults, db, e.clock, e.book).Committed?
    ensures e.book.Some?
  {
  }

  lemma StampIsStampDate(b: Workbook)
    ensures IsStampDate(StampOf(b).0)
  {
    StampFromIsStampDate(b, 0, "", "");
  }

  lemma InitialHolds()
    ensures HoldsIfAny(INITIAL)
  {
    InitialIsGood();
    CurrentTablesDiffer();
  }

  // ---------- The exact condition ----------

  lemma LatestOfHolds(db: Tables, d: string, t: string)
    requires Holds(db, d, t)
    ensures LatestData(db) == ReadPair(db, TITLES, STOCK, d, t) && LatestData(db).Data?
  {
    LastCells(d, t);
    CurrentPairIsReadable(db, d, t);
    assert LastTable(d, t).columns == ["date", "time"];
    assert ["date", "time"][0] == "date" && ["date", "time"][1] == "time";
    hide ReadPair, Good, IsStampDate;
  }

  lemma StoredKeepsArchive(db: Tables, b: Workbook)
    requires Good(db) && WellFormed(b)
    ensures SameArchive(db, Stored(db, b))
  {
    hide WellFormed, TitlesTable, StockTable, LastTable;
    CurrentTablesDiffer();
    CurrentIsNotDated();
  }

  /** The guards under which an Update that replaces date `d` archives it: there is a comparison, its query
      succeeds, and the rotation is free. The query is statement n + 1, the rotation n + 2 to n + 4. */
  predicate ArchivesFreely(f: Faults, db: Tables, n: nat, b: Workbook, d: string)
    requires b.rows != []
  {
    HasStamp(b.rows[0]) && !f(n + 1) && RotationIsFree(f, db, n + 2, d)
  }

  /** What the comparison leaves: the complete rotation exactly when the guards hold, else the same archive. */
  lemma {:induction false} ComparedTables(f: Faults, db: Tables, n: nat, b: Workbook, d: string, t: string)
    requires Holds(db, d, t) && WellFormed(b) && StampOf(b).0 != d && FirstRow(f, db, n + 1, b).Proceed?
    ensures b.rows != [] && Good(FirstRow(f, db, n + 1, b).db)
    ensures var mid := FirstRow(f, db, n + 1, b).db;
            if ArchivesFreely(f, db, n, b, d) then mid == RotatedFully(db, d, t) else SameArchive(db, mid)
  {
    assert |b.rows| >= 3;
    LastCells(d, t);
    ExtendsReflexive(db);
    assert LastTable(d, t).columns == ["date", "time"];
    assert ["date", "time"][0] == "date" && ["date", "time"][1] == "time";
    hide TryAll, RotationStatements, RotatedFully, Good, WellFormed, StampOf, Extends, RotationIsFree, IsStampDate;
    if HasStamp(b.rows[0]) {
      CheckKeepsGood(f, db, n + 1, StampOf(b).0, StampOf(b).1);
      if !f(n + 1) {
        if RotationIsFree(f, db, n + 2, d) { FreeRotation(f, db, n + 2, d, t); } else { RotationStops(f, db, n + 2, d, t); }
      }
    }
  }

  lemma {:induction false} FreeRotation(f: Faults, db: Tables, n: nat, d: string, t: string)
    requires Good(db) && RotationIsFree(f, db, n, d)
    ensures TITLES in db && STOCK in db && ARCHIVE in db
    ensures TryAll(f, db, n, RotationStatements(d, t)).0 == RotatedFully(db, d, t)
  {
    RotationSucceeds(f, db, n, d, t);
  }

  /** Under any faults, what is shown under date `d` before a committed Update of a well-formed workbook with
      another date can be asked for after it if and only if the guards of the rotation hold, or the archive
      already showed the same. */
  lemma {:induction false} KeptExactly(f: Faults, db: Tables, n: nat, b: Workbook, d: string, t: string)
    requires Holds(db, d, t) && WellFormed(b) && StampOf(b).0 != d && UpdateOutcome(f, db, n, Some(b)).Committed?
    ensures b.rows != []
    ensures var db' := UpdateOutcome(f, db, n, Some(b)).db;
            DataByDate(db', DateId(d)) == LatestData(db) <==>
              ArchivesFreely(f, db, n, b, d) || DataByDate(db, DateId(d)) == LatestData(db)
  {
    CommittedUpdate(f, b, db, n);
    ComparedTables(f, db, n, b, d, t);
    LatestOfHolds(db, d, t);
    hide UpdateOutcome, FirstRow, WellFormed, StampOf, Stored, RotatedFully, DataByDate, LatestData, DateId, ReadPair, Extends;
    var mid := FirstRow(f, db, n + 1, b).db;
    if ArchivesFreely(f, db, n, b, d) {
      StoredShows(db, b, d, t);
      RotatedAnswers(db, Stored(mid, b), d, t);
    } else {
      StoredKeepsArchive(mid, b);
      SameArchiveSameAnswers(db, mid, DateId(d));
      SameArchiveSameAnswers(mid, Stored(mid, b), DateId(d));
    }
  }

  /** The same at every point of every run of well-formed workbooks, whatever faults its Updates met, once a
      workbook is stored; and what is kept is kept for ever. */
  lemma {:induction false} KeptExactlyInRun(events: seq<Event>, e: Event, more: seq<Event>)
    requires forall x <- events :: x.book.Some? ==> WellFormed(x.book.value)
    requires e.book.Some? && WellFormed(e.book.value) && LAST in RunUpdates(INITIAL, events)
    requires UpdateOutcome(e.faults, RunUpdates(INITIAL, events), e.clock, e.book).Committed?
    ensures e.book.value.rows != []
    ensures var db := RunUpdates(INITIAL, events);
            var db' := Step(db, e);
            exists d: string, t: string :: Holds(db, d, t) &&
              (StampOf(e.book.value).0 != d ==>
                 (DataByDate(db', DateId(d)) == LatestData(db) <==>
                    ArchivesFreely(e.faults, db, e.clock, e.book.value, d) || DataByDate(db, DateId(d)) == LatestData(db)) &&
                 (DataByDate(db', DateId(d)) == LatestData(db) ==>
                    DataByDate(RunUpdates(db', more), DateId(d)) == LatestData(db)))
  {
    var db := RunUpdates(INITIAL, events);
    assert |e.book.value.rows| >= 3;
    hide WellFormed, RunUpdates, StampOf, DataByDate, LatestData, DateId, ArchivesFreely, Good, LastTable, IsStampDate, UpdateOutcome;
    InitialHolds();
    RunHolds(INITIAL, events);
    var d: string, t: string :| Holds(db, d, t);
    LatestOfHolds(db, d, t);
    StepKeepsGood(db, e);
    if StampOf(e.book.value).0 != d {
      KeptExactly(e.faults, db, e.clock, e.book.value, d, t);
      if DataByDate(Step(db, e), DateId(d)) == LatestData(db) { AnswersNeverChange(Step(db, e), more, DateId(d)); }
    }
  }

  // ---------- One swallowed fault ----------

  function OnlyAt(m: nat): Faults {
    k => k == m
  }

  /** When just the first rename fails the Update still commits, on tables that were not rotated. */
  lemma {:induction false} SwallowedRename(db: Tables, n: nat, b: Workbook, d: string, t: string)
    requires Holds(db, d, t) && WellDated(b) && StampOf(b).0 != d
    ensures UpdateOutcome(OnlyAt(n + 2), db, n, Some(b)) == Committed(Stored(db, b))
  {
    var f := OnlyAt(n + 2);
    PlanOfWellFormed(f, db, n + 1, b);
    FirstRenameFails(f, db, n + 1, StampOf(b).0, StampOf(b).1, d, t);
    hide WellFormed, RowPlan, Execute0, Stored, ExecutePlan, PlanOf, StampOf, CheckStamp;
    FreeFromHere(f, db, n + 3, RowPlan(b, 1, AfterRow1(b)));
    LaterRowsStoreAll(b, db);
  }

  lemma {:induction false} FirstRenameFails(f: Faults, db: Tables, n: nat, date: string, time: string, d: string, t: string)
    requires Holds(db, d, t) && d != date && !f(n) && f(n + 1)
    ensures CheckStamp(f, db, n, date, time) == Proceed(db, n + 2)
  {
    LastCells(d, t);
    assert LastTable(d, t).columns == ["date", "time"];
    assert ["date", "time"][0] == "date" && ["date", "time"][1] == "time";
    var s := RotationStatements(d, t);
    TryThree(f, db, n + 1, s[0], s[1], s[2]);
    hide TryAll, RotationStatements, Good, IsStampDate;
  }

  /** So a date is lost that never came back: it was shown, no archive has it, and the Update commits. */
  lemma SwallowedRenameLosesDate(db: Tables, n: nat, b: Workbook, d: string, t: string)
    requires Holds(db, d, t) && WellDated(b) && StampOf(b).0 != d && DataByDate(db, DateId(d)) == NotFound
    ensures var outcome := UpdateOutcome(OnlyAt(n + 2), db, n, Some(b));
            outcome.Committed? && DataByDate(outcome.db, DateId(d)) == NotFound && LatestData(db).Data?
  {
    SwallowedRename(db, n, b, d, t);
    LatestOfHolds(db, d, t);
    hide UpdateOutcome, WellFormed, Stored, StampOf, DataByDate, LatestData, DateId, Good, IsStampDate;
    StoredKeepsArchive(db, b);
    SameArchiveSameAnswers(db, Stored(db, b), DateId(d));
  }

  /** Two dates for it, from the initial database on. */
  lemma DateIsLost()
    ensures var outcome := UpdateOutcome(OnlyAt(2), After1("1392/11/15"), 0, Some(Sample("1392/11/16", "2")));
            outcome.Committed? && LatestData(After1("1392/11/15")).Data? &&
            DataByDate(outcome.db, DateId("1392/11/15")) != LatestData(After1("1392/11/15"))
  {
    hide *;
    TwoDates();
    LosesFirst("1392/11/15", "1392/11/16");
  }

  lemma LosesFirst(d: string, e: string)
    requires IsNormal(DateStamp, d) && IsNormal(DateStamp, e) && d != e
    ensures var outcome := UpdateOutcome(OnlyAt(2), After1(d), 0, Some(Sample(e, "2")));
            outcome.Committed? && LatestData(After1(d)).Data? && DataByDate(outcome.db, DateId(d)) == NotFound
  {
    hide *;
    After1Holds(d);
    SampleStamp(e, "2");
    FirstDateIsNotFound(d);
    SwallowedRenameLosesDate(After1(d), 0, Sample(e, "2"), d, StampOf(Sample(d, "1")).1);
  }

  lemma After1Holds(d: string)
    requires IsNormal(DateStamp, d)
    ensures Holds(After1(d), d, StampOf(Sample(d, "1")).1)
  {
    After1Is(d);
    hide After1, Good, LastTable, Sample, StampOf, IsNormal;
  }

  lemma SampleStamp(date: string, value: string)
    requires IsNormal(DateStamp, date)
    ensures WellDated(Sample(date, value)) && StampOf(Sample(date, value)).0 == date
  {
    SampleIsWellFormed(date, value);
    hide WellDated, Sample, StampOf, IsNormal;
  }

  lemma FirstDateIsNotFound(d: string)
    requires IsNormal(DateStamp, d)
    ensures DataByDate(After1(d), DateId(d)) == NotFound
  {
    After1Is(d);
    InitialIsGood();
    InitialFindsNothing(DateId(d));
    hide UpdateOutcome, WellFormed, After1, Stored, DataByDate, LatestData, DateId, Good, IsNormal, LastTable, Sample;
    StoredKeepsArchive(INITIAL, Sample(d, "1"));
    SameArchiveSameAnswers(INITIAL, After1(d), DateId(d));
  }
}
