/** A committed well-formed workbook is exactly what GetLatestData returns. */
module Fidelity {
  import opened Text
  import opened Database
  import opened DbTables
  import opened Stamp
  import opened Ingest
  import opened DataService
  import opened Archive
  import opened Atomicity

  // ---------- Well-formed workbooks ----------

  /** The text of a data cell. */
  function Decoded(strings: seq<string>, c: Cell): Option<string> {
    if c.kind == "s" then Shared(strings, c) else c.number
  }

  /** The first `n` cells without those that hold no shared string. */
  function StringCells(cells: seq<Cell>, n: nat): (r: seq<Cell>)
    requires n <= |cells|
    ensures |r| <= n
  {
    if n == 0 then [] else StringCells(cells, n - 1) + if cells[n - 1].kind == "s" then [cells[n - 1]] else []
  }

  /** The titles: the string cells of row 2, wherever they stand. */
  function Header(b: Workbook): seq<Cell>
    requires |b.rows| >= 2
  {
    StringCells(b.rows[1].cells, |b.rows[1].cells|)
  }

  function Width(b: Workbook): nat
    requires |b.rows| >= 2
  {
    |Header(b)|
  }

  function Refs(b: Workbook): (refs: seq<string>)
    requires |b.rows| >= 2
    ensures |refs| == Width(b) && forall j :: 0 <= j < |refs| ==> refs[j] == Header(b)[j].ref
  {
    seq(Width(b), j requires 0 <= j < Width(b) => Header(b)[j].ref)
  }

  /** Rows 1, 2 and 3, then rows in ascending order, with gaps, and rows without a number; the date cell in row 1,
      if there is one, is readable; the string cells of row 2 are readable and have distinct cell references, and
      other cells may stand between them; later rows have readable cells, at most as many as there are titles. */
  ghost predicate WellFormed(b: Workbook) {
    |b.rows| >= 3 && b.rows[0].r == 1 && b.rows[1].r == 2 && b.rows[2].r == 3 &&
    (forall i, j :: 2 <= i < j < |b.rows| && IsNumbered(b.rows[i]) && IsNumbered(b.rows[j]) ==> b.rows[i].r < b.rows[j].r) &&
    (HasStamp(b.rows[0]) ==> Shared(b.sharedStrings, b.rows[0].cells[FirstStamp(b.rows[0].cells, 0)]).Some?) &&
    (forall c <- b.rows[1].cells :: GoodTitle(b, c)) && Distinct(Refs(b)) &&
    (forall i :: 2 <= i < |b.rows| ==> GoodRow(b, b.rows[i]))
  }

  ghost predicate WellDated(b: Workbook) {
    WellFormed(b) && HasStamp(b.rows[0])
  }

  predicate IsNumbered(row: SheetRow) {
    row.r > 0
  }

  ghost predicate GoodTitle(b: Workbook, c: Cell) {
    c.kind == "s" ==> Shared(b.sharedStrings, c).Some? && IsCellRef(c.ref)
  }

  ghost predicate GoodRow(b: Workbook, row: SheetRow)
    requires |b.rows| >= 2
  {
    |row.cells| <= Width(b) && forall j :: 0 <= j < |row.cells| ==> Decoded(b.sharedStrings, row.cells[j]).Some?
  }

  lemma {:induction false} StringCellsAre(cells: seq<Cell>, n: nat)
    requires n <= |cells|
    ensures forall c <- StringCells(cells, n) :: c.kind == "s" && c in cells
  {
    if n > 0 { StringCellsAre(cells, n - 1); }
  }

  lemma {:induction false} StringCellsGrow(cells: seq<Cell>, n: nat, m: nat)
    requires n <= m <= |cells|
    ensures StringCells(cells, n) <= StringCells(cells, m)
  {
    if n < m { StringCellsGrow(cells, n, m - 1); }
  }

  lemma HasThreeRows(b: Workbook)
    requires WellFormed(b)
    ensures |b.rows| >= 3
  {
  }

  lemma HeaderIsGood(b: Workbook, j: nat)
    requires WellFormed(b) && j < Width(b)
    ensures var c := Header(b)[j]; c.kind == "s" && Shared(b.sharedStrings, c).Some? && IsCellRef(c.ref)
  {
    StringCellsAre(b.rows[1].cells, |b.rows[1].cells|);
    assert Header(b)[j] in b.rows[1].cells;
    hide StringCells, IsCellRef;
  }

  /** The string cells of row 2 decoded, in order. */
  ghost function Titles(b: Workbook): seq<string>
    requires WellFormed(b)
  {
    seq(Width(b), j requires 0 <= j < Width(b) => TitleAt(b, j))
  }

  ghost function TitleAt(b: Workbook, j: nat): string
    requires WellFormed(b) && j < Width(b)
  {
    HeaderIsGood(b, j);
    Shared(b.sharedStrings, Header(b)[j]).value
  }

  ghost function ValueAt(b: Workbook, i: nat, j: nat): string
    requires WellFormed(b) && 2 <= i < |b.rows| && j < |b.rows[i].cells|
  {
    assert GoodRow(b, b.rows[i]);
    Decoded(b.sharedStrings, b.rows[i].cells[j]).value
  }

  /** What is shown of data row `i`: its cells in order, cell k under title k; where the row is shorter than the
      header, its last cell again and again, or the row number if it has no cell at all. */
  ghost function ShownRow(b: Workbook, i: nat): seq<string>
    requires WellFormed(b) && 2 <= i < |b.rows|
  {
    var m := |b.rows[i].cells|;
    seq(Width(b), j requires 0 <= j < Width(b) =>
      if j < m then ValueAt(b, i, j) else if m == 0 then IntToStr(b.rows[i].r) else ValueAt(b, i, m - 1))
  }

  /** The numbered rows from the third up to row `i`, as they are shown, in order. */
  ghost function ShownRows(b: Workbook, i: nat): seq<seq<string>>
    requires WellFormed(b) && 2 <= i <= |b.rows|
  {
    if i == 2 then [] else ShownRows(b, i - 1) + if IsNumbered(b.rows[i - 1]) then [ShownRow(b, i - 1)] else []
  }

  ghost function Values(b: Workbook): seq<seq<string>>
    requires WellFormed(b)
  {
    ShownRows(b, |b.rows|)
  }

  ghost function ContentOf(b: Workbook): Content
    requires WellFormed(b)
  {
    Content(StampOf(b).0, StampOf(b).1, Titles(b), Values(b))
  }

  // ---------- Execution without faults ----------

  function CheckFree(db: Tables, date: string, time: string): Checked {
    CheckStamp(NoFaults(), db, 0, date, time)
  }

  function Execute0(db: Tables, p: Plan): Outcome
    decreases p
  {
    match p
    case Throw => Failed
    case Commit => Committed(db)
    case Do(s, next) =>
      (match Apply(db, s)
       case None => Failed
       case Some(db') => Execute0(db', next))
    case Check(date, time, next) =>
      (match CheckFree(db, date, time)
       case Same => Skipped
       case Proceed(db', _) => Execute0(db', next))
  }

  lemma CheckIgnoresClock(db: Tables, n: nat, date: string, time: string)
    ensures var c, d := CheckStamp(NoFaults(), db, n, date, time), CheckFree(db, date, time);
            c.Same? == d.Same? && (c.Proceed? ==> c.db == d.db)
  {
    hide Apply, TableFromDate;
    if LAST in db && db[LAST].rows != [] {
      var row := db[LAST].rows[0];
      var d, t := Fetch(row, "date", ""), Fetch(row, "time", "");
      var s := RotationStatements(d, t);
      TryThree(NoFaults(), db, n + 1, s[0], s[1], s[2]);
      TryThree(NoFaults(), db, 1, s[0], s[1], s[2]);
      hide TryAll;
    }
  }

  lemma {:induction false} NoFaultsNoClock(db: Tables, n: nat, p: Plan)
    ensures ExecutePlan(NoFaults(), db, n, p) == Execute0(db, p)
    decreases p
  {
    hide Apply, CheckStamp, CheckFree;
    match p
    case Throw =>
    case Commit =>
    case Do(s, next) => if Apply(db, s).Some? { NoFaultsNoClock(Apply(db, s).value, n + 1, next); }
    case Check(date, time, next) =>
      CheckIgnoresClock(db, n, date, time);
      var c := CheckStamp(NoFaults(), db, n, date, time);
      if c.Proceed? { NoFaultsNoClock(c.db, c.n, next); }
  }

  // ---------- Row 1 ----------

  ghost function AfterRow1(b: Workbook): Local
    requires WellFormed(b)
  {
    START.(date := StampOf(b).0, time := StampOf(b).1)
  }

  lemma LaterRowsAreNotFirst(b: Workbook)
    requires WellFormed(b)
    ensures forall k :: 1 <= k < |b.rows| ==> b.rows[k].r != 1
    ensures forall k :: 2 <= k < |b.rows| ==> b.rows[k].r != 2
    ensures forall k :: 3 <= k < |b.rows| ==> b.rows[k].r != 3
  {
    assert IsNumbered(b.rows[2]);
    forall k | 3 <= k < |b.rows| && b.rows[k].r in {1, 2, 3}
      ensures false
    {
      assert IsNumbered(b.rows[k]);
    }
  }

  lemma {:induction false} LaterRowsHaveNoStamp(b: Workbook, i: nat, date: string, time: string)
    requires WellFormed(b) && 1 <= i <= |b.rows|
    ensures StampFrom(b, i, date, time) == (date, time)
    decreases |b.rows| - i
  {
    LaterRowsAreNotFirst(b);
    hide WellFormed;
    if i < |b.rows| { LaterRowsHaveNoStamp(b, i + 1, date, time); }
  }

  lemma {:induction false} PlanStartsWithCheck(b: Workbook)
    requires WellDated(b)
    ensures PlanOf(b) == Check(StampOf(b).0, StampOf(b).1, RowPlan(b, 1, AfterRow1(b)))
  {
    hide Stamped;
    var c := b.rows[0].cells[FirstStamp(b.rows[0].cells, 0)];
    var v := Shared(b.sharedStrings, c).value;
    LaterRowsHaveNoStamp(b, 1, Stamped(DateStamp, v, ""), Stamped(TimeStamp, v, ""));
    PlanOfFirstRow(b);
  }

  /** A first row without a date cell does nothing, and the stamp stays empty. */
  lemma {:induction false} PlanWithoutCheck(b: Workbook)
    requires WellFormed(b) && !HasStamp(b.rows[0])
    ensures PlanOf(b) == RowPlan(b, 1, AfterRow1(b))
  {
    LaterRowsHaveNoStamp(b, 1, "", "");
    SkipFirstRow(b, 0);
  }

  lemma {:induction false} SkipFirstRow(b: Workbook, j: nat)
    requires WellFormed(b) && j <= |b.rows[0].cells| && FirstStamp(b.rows[0].cells, j) == |b.rows[0].cells|
    ensures CellPlan(b, 0, j, START) == RowPlan(b, 1, START)
    decreases |b.rows[0].cells| - j
  {
    hide RowPlan;
    if j < |b.rows[0].cells| { SkipFirstRow(b, j + 1); }
  }

  /** What the first row of a well-formed workbook leads to: the comparison, or nothing. */
  ghost function FirstRow(f: Faults, db: Tables, n: nat, b: Workbook): Checked
    requires WellFormed(b)
  {
    if HasStamp(b.rows[0]) then CheckStamp(f, db, n, StampOf(b).0, StampOf(b).1) else Proceed(db, n)
  }

  lemma {:induction false} PlanOfWellFormed(f: Faults, db: Tables, n: nat, b: Workbook)
    requires WellFormed(b)
    ensures 1 <= |b.rows| && NoCheck(RowPlan(b, 1, AfterRow1(b)))
    ensures ExecutePlan(f, db, n, PlanOf(b)) ==
            match FirstRow(f, db, n, b)
            case Same => Skipped
            case Proceed(mid, n') => ExecutePlan(f, mid, n', RowPlan(b, 1, AfterRow1(b)))
  {
    LaterRowsAreNotFirst(b);
    assert !StampAhead(b, 1);
    if HasStamp(b.rows[0]) { PlanStartsWithCheck(b); } else { PlanWithoutCheck(b); }
    assert 1 <= |b.rows|;
    hide WellFormed, RowPlan, CheckStamp, PlanOf, StampOf;
    RowPlanHasNoCheck(b, 1, AfterRow1(b));
  }

  // ---------- Row 2 ----------

  ghost function TitleRow(b: Workbook, j: nat): Row
    requires WellFormed(b) && j < Width(b)
  {
    Row(j + 1, CellsOf(["id", "title"], [Refs(b)[j], TitleAt(b, j)]))
  }

  ghost function TitlesTable(b: Workbook, n: nat): Table
    requires WellFormed(b) && n <= Width(b)
  {
    Table(["id", "title"], TextKey, seq(n, j requires 0 <= j < n => TitleRow(b, j)))
  }

  lemma TitleCells(id: string, title: string)
    ensures var m := CellsOf(["id", "title"], [id, title]);
            "id" in m && m["id"] == id && "title" in m && m["title"] == title
  {
    assert "id"[0] != "title"[0];
    CellsOfDistinct(["id", "title"], [id, title]);
    assert ["id", "title"][0] in CellsOf(["id", "title"], [id, title]);
    assert ["id", "title"][1] in CellsOf(["id", "title"], [id, title]);
  }

  lemma InsertTitle(t: Table, id: string, title: string)
    requires t.columns == ["id", "title"] && t.key == TextKey
    requires forall r <- t.rows :: r.id < NextRowId(t.rows) && "id" in r.cells && r.cells["id"] != id
    ensures var cells := CellsOf(["id", "title"], [id, title]);
            Inserted(t, ["id", "title"], [id, title]) == Some(t.(rows := t.rows + [Row(NextRowId(t.rows), cells)]))
  {
    TitleCells(id, title);
    hide CellsOf, NextRowId;
    InsertAtEnd(t.rows, Row(NextRowId(t.rows), CellsOf(["id", "title"], [id, title])));
    assert t.columns[0] == "id";
    assert !exists r <- t.rows :: "id" in r.cells && r.cells["id"] == id;
  }

  lemma EarlierTitles(b: Workbook, j: nat)
    requires WellFormed(b) && j < Width(b)
    ensures var t := TitlesTable(b, j);
            NextRowId(t.rows) == j + 1 &&
            forall r <- t.rows :: r.id <= j && "id" in r.cells && r.cells["id"] != Refs(b)[j]
  {
    assert |b.rows| >= 3;
    DistinctRefs(b);
    hide CellsOf, WellFormed, TitleAt;
    forall k | 0 <= k < j
      ensures "id" in TitleRow(b, k).cells && TitleRow(b, k).cells["id"] != Refs(b)[j]
    {
      TitleCells(Refs(b)[k], TitleAt(b, k));
    }
  }

  lemma NextTitles(b: Workbook, j: nat)
    requires WellFormed(b) && j < Width(b)
    ensures TitlesTable(b, j).(rows := TitlesTable(b, j).rows + [TitleRow(b, j)]) == TitlesTable(b, j + 1)
  {
    hide WellFormed, TitleRow;
  }

  lemma AddTitle(b: Workbook, db: Tables, j: nat)
    requires WellFormed(b) && j < Width(b) && TITLES in db && db[TITLES] == TitlesTable(b, j)
    ensures Apply(db, Insert(TITLES, ["id", "title"], [Refs(b)[j], TitleAt(b, j)])) ==
            Some(db[TITLES := TitlesTable(b, j + 1)])
  {
    assert |b.rows| >= 3;
    var t := TitlesTable(b, j);
    assert t.columns == ["id", "title"] && t.key == TextKey;
    hide CellsOf, WellFormed, Inserted, TitleAt, Apply, NextRowId, TitlesTable;
    EarlierTitles(b, j);
    InsertTitle(t, Refs(b)[j], TitleAt(b, j));
    NextTitles(b, j);
    InsertApplies(db, TITLES, ["id", "title"], [Refs(b)[j], TitleAt(b, j)], TitlesTable(b, j + 1));
  }

  lemma DistinctRefs(b: Workbook)
    requires WellFormed(b)
    ensures Distinct(Refs(b))
  {
  }

  /** The locals after the first `j` titles. */
  ghost function AfterTitles(b: Workbook, j: nat): Local
    requires WellFormed(b) && j <= Width(b)
  {
    AfterRow1(b).(ids := Refs(b)[..j],
                  fields := [IntegerColumn("r")] + seq(j, k requires 0 <= k < j => TextColumn(Refs(b)[k])))
  }

  /** How many titles the first `j` cells of row 2 give. */
  function TitleCount(b: Workbook, j: nat): (n: nat)
    requires |b.rows| >= 2 && j <= |b.rows[1].cells|
    ensures n <= Width(b)
  {
    StringCellsGrow(b.rows[1].cells, j, |b.rows[1].cells|);
    |StringCells(b.rows[1].cells, j)|
  }

  lemma NextTitleCount(b: Workbook, j: nat)
    requires |b.rows| >= 2 && j < |b.rows[1].cells|
    ensures var c, n := b.rows[1].cells[j], TitleCount(b, j);
            if c.kind == "s" then n < Width(b) && Header(b)[n] == c && TitleCount(b, j + 1) == n + 1
            else TitleCount(b, j + 1) == n
  {
    StringCellsGrow(b.rows[1].cells, j + 1, |b.rows[1].cells|);
    var cells := b.rows[1].cells;
    if cells[j].kind == "s" {
      assert StringCells(cells, j + 1)[TitleCount(b, j)] == cells[j];
    }
  }

  /** The plan from cell `j` of row 2 on. */
  ghost function TitlePlan(b: Workbook, j: nat): Plan
    requires WellFormed(b) && j <= |b.rows[1].cells|
  {
    CellPlan(b, 1, j, AfterTitles(b, TitleCount(b, j)))
  }

  lemma {:induction false} TitlesAreStored(b: Workbook, db: Tables, j: nat)
    requires WellFormed(b) && j <= |b.rows[1].cells|
    requires TITLES in db && db[TITLES] == TitlesTable(b, TitleCount(b, j))
    ensures Execute0(db, TitlePlan(b, j)) ==
            Execute0(db[TITLES := TitlesTable(b, Width(b))], RowPlan(b, 2, AfterTitles(b, Width(b))))
    decreases |b.rows[1].cells| - j
  {
    hide *;
    HasThreeRows(b);
    if j == |b.rows[1].cells| {
      TitlesEnd(b);
      assert db[TITLES := TitlesTable(b, Width(b))] == db;
    } else {
      TitleCellIsStored(b, db, j);
      var db' := db[TITLES := TitlesTable(b, TitleCount(b, j + 1))];
      TitlesAreStored(b, db', j + 1);
      assert db'[TITLES := TitlesTable(b, Width(b))] == db[TITLES := TitlesTable(b, Width(b))];
    }
  }

  lemma {:induction false} TitlesEnd(b: Workbook)
    requires WellFormed(b)
    ensures TitleCount(b, |b.rows[1].cells|) == Width(b)
    ensures TitlePlan(b, |b.rows[1].cells|) == RowPlan(b, 2, AfterTitles(b, Width(b)))
  {
    assert |b.rows| >= 3;
    hide WellFormed, RowPlan, StringCells, AfterTitles;
  }

  /** One cell of row 2: a string cell is one more title, and any other changes nothing. */
  lemma {:induction false} TitleCellIsStored(b: Workbook, db: Tables, j: nat)
    requires WellFormed(b) && j < |b.rows[1].cells|
    requires TITLES in db && db[TITLES] == TitlesTable(b, TitleCount(b, j))
    ensures Execute0(db, TitlePlan(b, j)) == Execute0(db[TITLES := TitlesTable(b, TitleCount(b, j + 1))], TitlePlan(b, j + 1))
  {
    hide *;
    HasThreeRows(b);
    NextTitleCount(b, j);
    TitlePlanIs(b, j);
    TitlePlanIs(b, j + 1);
    if b.rows[1].cells[j].kind == "s" {
      StringCellIsStored(b, db, j, TitleCount(b, j));
    } else {
      OtherCellIsSkipped(b, j, AfterTitles(b, TitleCount(b, j)));
      assert db[TITLES := TitlesTable(b, TitleCount(b, j))] == db;
    }
  }

  lemma {:induction false} TitlePlanIs(b: Workbook, j: nat)
    requires WellFormed(b) && j <= |b.rows[1].cells|
    ensures TitlePlan(b, j) == CellPlan(b, 1, j, AfterTitles(b, TitleCount(b, j)))
  {
    hide CellPlan, AfterTitles;
  }

  lemma {:induction false} StringCellIsStored(b: Workbook, db: Tables, j: nat, n: nat)
    requires WellFormed(b) && j < |b.rows[1].cells| && n < Width(b) && Header(b)[n] == b.rows[1].cells[j]
    requires TITLES in db && db[TITLES] == TitlesTable(b, n)
    ensures Execute0(db, CellPlan(b, 1, j, AfterTitles(b, n))) ==
            Execute0(db[TITLES := TitlesTable(b, n + 1)], CellPlan(b, 1, j + 1, AfterTitles(b, n + 1)))
  {
    assert b.rows[1].r == 2;
    hide WellFormed, CellAction, AfterTitles, TitlesTable, Apply, RowPlan, TitleCount, Header, TitleAt;
    TitleAction(b, n, j);
    AddTitle(b, db, n);
  }

  lemma {:induction false} OtherCellIsSkipped(b: Workbook, j: nat, l: Local)
    requires WellFormed(b) && j < |b.rows[1].cells| && b.rows[1].cells[j].kind != "s"
    ensures CellPlan(b, 1, j, l) == CellPlan(b, 1, j + 1, l)
  {
    assert b.rows[1].r == 2;
    assert CellAction(b.sharedStrings, 2, b.rows[1].cells[j], j, l) == Act(Nothing, l, false);
    hide WellFormed, CellAction, RowPlan;
  }

  lemma TitleAction(b: Workbook, n: nat, j: nat)
    requires WellFormed(b) && n < Width(b)
    ensures CellAction(b.sharedStrings, 2, Header(b)[n], j, AfterTitles(b, n)) ==
            Act(Run(Insert(TITLES, ["id", "title"], [Refs(b)[n], TitleAt(b, n)])), AfterTitles(b, n + 1), false)
  {
    HeaderIsGood(b, n);
    var l := AfterTitles(b, n);
    assert l.ids + [Refs(b)[n]] == AfterTitles(b, n + 1).ids;
    assert l.fields + [TextColumn(Refs(b)[n])] == AfterTitles(b, n + 1).fields;
  }

  lemma TitlesAreCreated(db: Tables)
    ensures Apply(db - {TITLES}, CreateTable(TITLES, DATA_TITLES_FIELDS)) ==
            Some(db[TITLES := Table(["id", "title"], TextKey, [])])
  {
    var c := [TextColumn("id"), TextColumn("title")];
    assert Columns(DATA_TITLES_FIELDS) == c;
    assert "id"[0] != "title"[0];
    assert FieldNames(c) == ["id", "title"];
    assert (db - {TITLES})[TITLES := Table(["id", "title"], TextKey, [])] == db[TITLES := Table(["id", "title"], TextKey, [])];
  }

  lemma {:induction false} Row2IsStored(b: Workbook, db: Tables)
    requires WellFormed(b)
    ensures Execute0(db, RowPlan(b, 1, AfterRow1(b))) ==
            Execute0(db[TITLES := TitlesTable(b, Width(b))], RowPlan(b, 2, AfterTitles(b, Width(b))))
  {
    hide CellPlan, Apply;
    var empty := Table(["id", "title"], TextKey, []);
    var db1 := db - {TITLES};
    var db2 := db[TITLES := empty];
    assert Apply(db, DropTable(TITLES)) == Some(db1) by { DropApplies(db, TITLES); }
    TitlesAreCreated(db);
    assert b.rows[1].r == 2 && TitleCount(b, 0) == 0 && AfterTitles(b, 0) == AfterRow1(b);
    assert TitlesTable(b, 0) == empty;
    var cells := CellPlan(b, 1, 0, AfterRow1(b));
    assert RowPlan(b, 1, AfterRow1(b)) == Do(DropTable(TITLES), Do(CreateTable(TITLES, DATA_TITLES_FIELDS), cells));
    assert Execute0(db1, Do(CreateTable(TITLES, DATA_TITLES_FIELDS), cells)) == Execute0(db2, cells);
    assert TitlePlan(b, 0) == cells;
    TitlesAreStored(b, db2, 0);
    assert db2[TITLES := TitlesTable(b, Width(b))] == db[TITLES := TitlesTable(b, Width(b))];
  }

  lemma DropApplies(db: Tables, t: string)
    ensures Apply(db, DropTable(t)) == Some(db - {t})
  {
  }

  // ---------- Rows 3, 4, ... ----------

  ghost function StockColumns(b: Workbook): seq<string>
    requires |b.rows| >= 2
  {
    ["r"] + Refs(b)
  }

  /** The cells of data row `i` once its first `k` cells are stored. */
  ghost function StockCells(b: Workbook, i: nat, k: nat): map<string, string>
    requires WellFormed(b) && 2 <= i < |b.rows| && k <= |b.rows[i].cells|
  {
    assert GoodRow(b, b.rows[i]);
    if k == 0 then map["r" := IntToStr(b.rows[i].r)] else StockCells(b, i, k - 1)[Refs(b)[k - 1] := ValueAt(b, i, k - 1)]
  }

  ghost function StockRow(b: Workbook, i: nat, k: nat): Row
    requires WellFormed(b) && 2 <= i < |b.rows| && k <= |b.rows[i].cells|
  {
    Row(b.rows[i].r, StockCells(b, i, k))
  }

  ghost function StockRows(b: Workbook, i: nat): seq<Row>
    requires WellFormed(b) && 2 <= i <= |b.rows|
  {
    if i == 2 then []
    else StockRows(b, i - 1) + if IsNumbered(b.rows[i - 1]) then [StockRow(b, i - 1, |b.rows[i - 1].cells|)] else []
  }

  /** STOCK_DATA when the rows before `i` are complete. */
  ghost function StockTable(b: Workbook, i: nat): Table
    requires WellFormed(b) && 2 <= i <= |b.rows|
  {
    Table(StockColumns(b), RowIdKey, StockRows(b, i))
  }

  /** ... and row `i` has its first `k` cells. */
  ghost function StockPartial(b: Workbook, i: nat, k: nat): Table
    requires WellFormed(b) && 2 <= i < |b.rows| && k <= |b.rows[i].cells|
  {
    Table(StockColumns(b), RowIdKey, StockRows(b, i) + [StockRow(b, i, k)])
  }

  lemma RefIsNotR(ref: string)
    requires IsCellRef(ref)
    ensures ref != "r"
  {
    assert |"r"| == 1;
  }

  lemma {:induction false} StockCellsAre(b: Workbook, i: nat, k: nat)
    requires WellFormed(b) && 2 <= i < |b.rows| && k <= |b.rows[i].cells|
    ensures k <= Width(b)
    ensures var m := StockCells(b, i, k);
            "r" in m && m["r"] == IntToStr(b.rows[i].r) &&
            (forall j :: 0 <= j < k ==> Refs(b)[j] in m && m[Refs(b)[j]] == ValueAt(b, i, j)) &&
            (forall j :: k <= j < Width(b) ==> Refs(b)[j] !in m)
  {
    assert GoodRow(b, b.rows[i]);
    DistinctRefs(b);
    if k == 0 {
      forall j | 0 <= j < Width(b)
        ensures Refs(b)[j] != "r"
      {
        HeaderIsGood(b, j);
        RefIsNotR(Refs(b)[j]);
      }
    } else {
      StockCellsAre(b, i, k - 1);
      HeaderIsGood(b, k - 1);
      RefIsNotR(Refs(b)[k - 1]);
      hide WellFormed, IsCellRef, StringCells, GoodRow, IntToStr;
    }
  }

  /** The rows stored before row `i` carry their own numbers, which are smaller than those still to come. */
  lemma {:induction false} StockRowsAre(b: Workbook, i: nat)
    requires WellFormed(b) && 2 <= i <= |b.rows|
    ensures forall row <- StockRows(b, i) :: row.id > 0 && "r" in row.cells && row.cells["r"] == IntToStr(row.id) &&
              forall j :: i <= j < |b.rows| && IsNumbered(b.rows[j]) ==> row.id < b.rows[j].r
  {
    if i > 2 {
      StockRowsAre(b, i - 1);
      var k := |b.rows[i - 1].cells|;
      StockCellsAre(b, i - 1, k);
      var rest := StockRows(b, i - 1);
      assert IsNumbered(b.rows[i - 1]) ==>
               forall j :: i <= j < |b.rows| && IsNumbered(b.rows[j]) ==> b.rows[i - 1].r < b.rows[j].r;
      hide WellFormed, StockCells, IntToStr;
      assert forall row <- StockRows(b, i) :: row in rest || (IsNumbered(b.rows[i - 1]) && row == StockRow(b, i - 1, k));
    }
  }

  lemma AddStockRow(b: Workbook, db: Tables, i: nat)
    requires WellFormed(b) && 2 <= i < |b.rows| && IsNumbered(b.rows[i]) && STOCK in db && db[STOCK] == StockTable(b, i)
    ensures Apply(db, Insert(STOCK, ["r"], [IntToStr(b.rows[i].r)])) == Some(db[STOCK := StockPartial(b, i, 0)])
  {
    var r, t, row := b.rows[i].r, StockTable(b, i), StockRow(b, i, 0);
    assert |b.rows| >= 3;
    assert t.columns != [] && t.columns[0] == "r" && row == Row(r, map["r" := IntToStr(r)]);
    StockRowsAre(b, i);
    hide WellFormed, IntToStr, StockRows, StockColumns, Apply, StockCells;
    InsertRowNumber(t, r);
    InsertAtEnd(t.rows, row);
    InsertApplies(db, STOCK, ["r"], [IntToStr(r)], t.(rows := t.rows + [row]));
  }

  /** A row that holds nothing but its number. */
  lemma InsertRowNumber(t: Table, r: int)
    requires t.columns != [] && t.columns[0] == "r" && t.key == RowIdKey
    ensures Inserted(t, ["r"], [IntToStr(r)]) == Some(t.(rows := InsertRow(t.rows, Row(r, map["r" := IntToStr(r)]))))
  {
    hide StrToInt, IntToStr, InsertRow;
    IntRoundTrip(r);
    CellsOfDistinct(["r"], [IntToStr(r)]);
    assert ["r"][0] in CellsOf(["r"], [IntToStr(r)]);
    var cells := map["r" := IntToStr(r)];
    assert CellsOf(["r"], [IntToStr(r)]) == cells && cells["r" := IntToStr(r)] == cells;
    assert !exists n <- ["r"] :: n !in t.columns;
  }

  lemma {:induction false} UpdateMisses(rows: seq<Row>, where: string, key: string, field: string, value: string)
    requires forall i :: 0 <= i < |rows| ==> where in rows[i].cells && rows[i].cells[where] != key
    ensures UpdateRows(rows, where, key, field, value) == rows
  {
    if rows != [] { UpdateMisses(rows[1..], where, key, field, value); }
  }

  lemma {:induction false} UpdateConcat(a: seq<Row>, b: seq<Row>, where: string, key: string, field: string, value: string)
    ensures UpdateRows(a + b, where, key, field, value) ==
            UpdateRows(a, where, key, field, value) + UpdateRows(b, where, key, field, value)
  {
    if a == [] {
      assert a + b == b;
    } else {
      assert (a + b)[0] == a[0] && (a + b)[1..] == a[1..] + b;
      UpdateConcat(a[1..], b, where, key, field, value);
    }
  }

  /** The rows stored before row `i` are not touched by its updates: row numbers print differently. */
  lemma {:induction false} OtherRowsAreMissed(b: Workbook, i: nat, field: string, value: string)
    requires WellFormed(b) && 2 <= i < |b.rows|
    ensures UpdateRows(StockRows(b, i), "r", IntToStr(b.rows[i].r), field, value) == StockRows(b, i)
  {
    var r, rows := b.rows[i].r, StockRows(b, i);
    assert !IsNumbered(b.rows[i]) ==> r <= 0;
    StockRowsAre(b, i);
    hide WellFormed, IntToStr, StockRows;
    forall m | 0 <= m < |rows|
      ensures "r" in rows[m].cells && rows[m].cells["r"] != IntToStr(r)
    {
      assert rows[m] in rows;
      if IntToStr(rows[m].id) == IntToStr(r) { IntToStrInjective(rows[m].id, r); }
    }
    UpdateMisses(rows, "r", IntToStr(r), field, value);
  }

  lemma AddStockCell(b: Workbook, db: Tables, i: nat, k: nat)
    requires WellFormed(b) && 2 <= i < |b.rows| && k < |b.rows[i].cells| && STOCK in db && db[STOCK] == StockPartial(b, i, k)
    ensures k < Width(b)
    ensures Apply(db, Update(STOCK, "r", IntToStr(b.rows[i].r), Refs(b)[k], ValueAt(b, i, k))) ==
            Some(db[STOCK := StockPartial(b, i, k + 1)])
  {
    assert GoodRow(b, b.rows[i]);
    HeaderIsGood(b, k);
    hide WellFormed, IsCellRef, IntToStr, StockRows;
    var key, field, value := IntToStr(b.rows[i].r), Refs(b)[k], ValueAt(b, i, k);
    var last := StockRow(b, i, k);
    OtherRowsAreMissed(b, i, field, value);
    StockCellsAre(b, i, k);
    UpdateConcat(StockRows(b, i), [last], "r", key, field, value);
    assert UpdateRows([last], "r", key, field, value) == [StockRow(b, i, k + 1)];
    assert StockColumns(b)[0] == "r" && StockColumns(b)[k + 1] == field;
  }

  /** An update for a row without a number finds nothing. */
  lemma UnnumberedCellMisses(b: Workbook, db: Tables, i: nat, k: nat)
    requires WellFormed(b) && 2 <= i < |b.rows| && k < |b.rows[i].cells| && STOCK in db && db[STOCK] == StockTable(b, i)
    ensures k < Width(b)
    ensures Apply(db, Update(STOCK, "r", IntToStr(b.rows[i].r), Refs(b)[k], ValueAt(b, i, k))) == Some(db)
  {
    assert GoodRow(b, b.rows[i]);
    HeaderIsGood(b, k);
    hide WellFormed, IsCellRef, IntToStr, StockRows;
    OtherRowsAreMissed(b, i, Refs(b)[k], ValueAt(b, i, k));
    assert StockColumns(b)[0] == "r" && StockColumns(b)[k + 1] == Refs(b)[k];
    assert db[STOCK := db[STOCK]] == db;
  }

  /** The locals while the data rows are read. */
  ghost function DataLocal(b: Workbook): Local
    requires WellFormed(b)
  {
    HeadLocal(3, AfterTitles(b, Width(b)))
  }

  /** The plan from cell `k` of data row `i` on. */
  ghost function DataPlan(b: Workbook, i: nat, k: nat): Plan
    requires WellFormed(b) && 2 <= i < |b.rows| && k <= |b.rows[i].cells|
  {
    CellPlan(b, i, k, DataLocal(b))
  }

  lemma StockAction(b: Workbook, i: nat, k: nat)
    requires WellFormed(b) && 2 <= i < |b.rows| && k < |b.rows[i].cells|
    ensures k < Width(b)
    ensures DataPlan(b, i, k) ==
            Do(Update(STOCK, "r", IntToStr(b.rows[i].r), Refs(b)[k], ValueAt(b, i, k)), DataPlan(b, i, k + 1))
  {
    assert GoodRow(b, b.rows[i]);
    LaterRowsAreNotFirst(b);
    var l := DataLocal(b);
    assert CellAction(b.sharedStrings, b.rows[i].r, b.rows[i].cells[k], k, l) ==
           Act(Run(Update(STOCK, "r", IntToStr(b.rows[i].r), Refs(b)[k], ValueAt(b, i, k))), l, false);
    hide WellFormed, CellAction, AfterTitles, ValueAt, RowPlan, IntToStr;
  }

  /** One cell of a data row. */
  lemma {:induction false} StockCellIsStored(b: Workbook, db: Tables, i: nat, k: nat)
    requires WellFormed(b) && 2 <= i < |b.rows| && k < |b.rows[i].cells| && STOCK in db && db[STOCK] == StockPartial(b, i, k)
    ensures Execute0(db, DataPlan(b, i, k)) == Execute0(db[STOCK := StockPartial(b, i, k + 1)], DataPlan(b, i, k + 1))
  {
    hide WellFormed, Apply, StockPartial, DataPlan, ValueAt;
    StockAction(b, i, k);
    AddStockCell(b, db, i, k);
  }

  lemma {:induction false} RowOfDataEnds(b: Workbook, i: nat)
    requires WellFormed(b) && 2 <= i < |b.rows|
    ensures DataPlan(b, i, |b.rows[i].cells|) == RowPlan(b, i + 1, DataLocal(b))
  {
    hide WellFormed, RowPlan, CellAction;
  }

  lemma {:induction false} FullRowIsTable(b: Workbook, i: nat)
    requires WellFormed(b) && 2 <= i < |b.rows| && IsNumbered(b.rows[i])
    ensures StockPartial(b, i, |b.rows[i].cells|) == StockTable(b, i + 1)
  {
    hide WellFormed, StockCells;
  }

  lemma {:induction false} StockRowIsStored(b: Workbook, db: Tables, i: nat, k: nat)
    requires WellFormed(b) && 2 <= i < |b.rows| && IsNumbered(b.rows[i]) && k <= |b.rows[i].cells|
    requires STOCK in db && db[STOCK] == StockPartial(b, i, k)
    ensures Execute0(db, DataPlan(b, i, k)) == Execute0(db[STOCK := StockTable(b, i + 1)], RowPlan(b, i + 1, DataLocal(b)))
    decreases |b.rows[i].cells| - k
  {
    hide *;
    if k == |b.rows[i].cells| {
      RowOfDataEnds(b, i);
      FullRowIsTable(b, i);
      assert db[STOCK := StockTable(b, i + 1)] == db;
    } else {
      StockCellIsStored(b, db, i, k);
      var db' := db[STOCK := StockPartial(b, i, k + 1)];
      StockRowIsStored(b, db', i, k + 1);
      assert db'[STOCK := StockTable(b, i + 1)] == db[STOCK := StockTable(b, i + 1)];
    }
  }

  /** A row without a number changes nothing. */
  lemma {:induction false} UnnumberedRowIsSkipped(b: Workbook, db: Tables, i: nat, k: nat)
    requires WellFormed(b) && 2 <= i < |b.rows| && k <= |b.rows[i].cells| && STOCK in db && db[STOCK] == StockTable(b, i)
    ensures Execute0(db, DataPlan(b, i, k)) == Execute0(db, RowPlan(b, i + 1, DataLocal(b)))
    decreases |b.rows[i].cells| - k
  {
    hide *;
    if k == |b.rows[i].cells| {
      RowOfDataEnds(b, i);
    } else {
      UnnumberedCellIsSkipped(b, db, i, k);
      UnnumberedRowIsSkipped(b, db, i, k + 1);
    }
  }

  lemma {:induction false} UnnumberedCellIsSkipped(b: Workbook, db: Tables, i: nat, k: nat)
    requires WellFormed(b) && 2 <= i < |b.rows| && k < |b.rows[i].cells| && STOCK in db && db[STOCK] == StockTable(b, i)
    ensures Execute0(db, DataPlan(b, i, k)) == Execute0(db, DataPlan(b, i, k + 1))
  {
    hide WellFormed, Apply, DataPlan, ValueAt, StockTable, RowPlan, DataLocal;
    StockAction(b, i, k);
    UnnumberedCellMisses(b, db, i, k);
  }

  lemma StockIsCreated(b: Workbook, db: Tables)
    requires WellFormed(b)
    ensures var fields := DataLocal(b).fields;
            Apply(db - {STOCK}, CreateTable(STOCK, fields)) == Some(db[STOCK := StockTable(b, 2)])
  {
    var columns := AfterTitles(b, Width(b)).fields;
    var fields := DataLocal(b).fields;
    assert fields == columns + [PrimaryKey("r")];
    assert Columns(fields) == columns;
    assert FieldNames(columns) == StockColumns(b);
    StockColumnsAreDistinct(b);
    assert ValidFields(fields);
    assert KeyOf(fields) == RowIdKey && StockRows(b, 2) == [];
    assert (db - {STOCK})[STOCK := StockTable(b, 2)] == db[STOCK := StockTable(b, 2)];
  }

  lemma StockColumnsAreDistinct(b: Workbook)
    requires WellFormed(b)
    ensures Distinct(StockColumns(b))
  {
    var c := StockColumns(b);
    forall i, j | 0 <= i < j < |c|
      ensures c[i] != c[j]
    {
      assert c[j] == Refs(b)[j - 1];
      HeaderIsGood(b, j - 1);
      RefIsNotR(c[j]);
      assert i > 0 ==> c[i] == Refs(b)[i - 1];
    }
  }

  /** A data row from the fourth on. */
  lemma LaterRowIsStored(b: Workbook, db: Tables, i: nat)
    requires WellFormed(b) && 3 <= i < |b.rows| && STOCK in db && db[STOCK] == StockTable(b, i)
    ensures var l := DataLocal(b);
            Execute0(db, RowPlan(b, i, l)) == Execute0(db[STOCK := StockTable(b, i + 1)], RowPlan(b, i + 1, l))
  {
    if IsNumbered(b.rows[i]) { NumberedRowIsStored(b, db, i); } else { UnnumberedRowIsStored(b, db, i); }
  }

  lemma {:induction false} NumberedRowIsStored(b: Workbook, db: Tables, i: nat)
    requires WellFormed(b) && 3 <= i < |b.rows| && IsNumbered(b.rows[i]) && STOCK in db && db[STOCK] == StockTable(b, i)
    ensures var l := DataLocal(b);
            Execute0(db, RowPlan(b, i, l)) == Execute0(db[STOCK := StockTable(b, i + 1)], RowPlan(b, i + 1, l))
  {
    LaterRowsAreNotFirst(b);
    hide WellFormed, Apply, CellPlan, AfterTitles, StockRows, StockPartial;
    var l := DataLocal(b);
    var cells := CellPlan(b, i, 0, l);
    assert RowPlan(b, i, l) == Do(Insert(STOCK, ["r"], [IntToStr(b.rows[i].r)]), cells);
    AddStockRow(b, db, i);
    var db' := db[STOCK := StockPartial(b, i, 0)];
    assert Execute0(db, RowPlan(b, i, l)) == Execute0(db', cells);
    StockRowIsStored(b, db', i, 0);
    assert db'[STOCK := StockTable(b, i + 1)] == db[STOCK := StockTable(b, i + 1)];
  }

  lemma {:induction false} UnnumberedRowIsStored(b: Workbook, db: Tables, i: nat)
    requires WellFormed(b) && 3 <= i < |b.rows| && !IsNumbered(b.rows[i]) && STOCK in db && db[STOCK] == StockTable(b, i)
    ensures var l := DataLocal(b);
            Execute0(db, RowPlan(b, i, l)) == Execute0(db[STOCK := StockTable(b, i + 1)], RowPlan(b, i + 1, l))
  {
    var l := DataLocal(b);
    assert StockTable(b, i + 1) == StockTable(b, i) && db[STOCK := StockTable(b, i)] == db;
    hide WellFormed, CellPlan, AfterTitles, StockRows, Execute0, DataLocal;
    assert RowPlan(b, i, l) == CellPlan(b, i, 0, l);
    UnnumberedRowIsSkipped(b, db, i, 0);
  }

  lemma {:induction false} AllRowsArePlanned(b: Workbook)
    requires WellFormed(b)
    ensures RowPlan(b, |b.rows|, DataLocal(b)) == FinalPlan(DataLocal(b).date, DataLocal(b).time)
  {
    hide WellFormed, DataLocal, FinalPlan;
  }

  lemma {:induction false} LaterRowsAreStored(b: Workbook, db: Tables, i: nat)
    requires WellFormed(b) && 3 <= i <= |b.rows| && STOCK in db && db[STOCK] == StockTable(b, i)
    ensures var l := DataLocal(b);
            Execute0(db, RowPlan(b, i, l)) == Execute0(db[STOCK := StockTable(b, |b.rows|)], FinalPlan(l.date, l.time))
    decreases |b.rows| - i
  {
    hide *;
    if i == |b.rows| {
      AllRowsArePlanned(b);
      assert db[STOCK := StockTable(b, i)] == db;
    } else {
      LaterRowIsStored(b, db, i);
      var db' := db[STOCK := StockTable(b, i + 1)];
      LaterRowsAreStored(b, db', i + 1);
      assert db'[STOCK := StockTable(b, |b.rows|)] == db[STOCK := StockTable(b, |b.rows|)];
    }
  }

  lemma {:induction false} Row3IsStored(b: Workbook, db: Tables)
    requires WellFormed(b)
    ensures var l := AfterTitles(b, Width(b));
            Execute0(db, RowPlan(b, 2, l)) == Execute0(db[STOCK := StockTable(b, 3)], RowPlan(b, 3, HeadLocal(3, l)))
  {
    assert b.rows[2].r == 3 && |b.rows| >= 3 && IsNumbered(b.rows[2]);
    hide WellFormed, Apply, CellPlan, AfterTitles, StockRows, IntToStr;
    var l := DataLocal(b);
    var cells := CellPlan(b, 2, 0, l);
    var insert := Do(Insert(STOCK, ["r"], [IntToStr(3)]), cells);
    var create := Do(CreateTable(STOCK, l.fields), insert);
    assert RowPlan(b, 2, AfterTitles(b, Width(b))) == Do(DropTable(STOCK), create);
    DropApplies(db, STOCK);
    StockIsCreated(b, db);
    var db2 := db[STOCK := StockTable(b, 2)];
    AddStockRow(b, db2, 2);
    var db3 := db2[STOCK := StockPartial(b, 2, 0)];
    StockRowIsStored(b, db3, 2, 0);
    assert Execute0(db - {STOCK}, create) == Execute0(db2, insert) == Execute0(db3, cells);
    assert db3[STOCK := StockTable(b, 3)] == db[STOCK := StockTable(b, 3)];
  }

  lemma {:induction false} LastIsStored(db: Tables, date: string, time: string)
    ensures Execute0(db, FinalPlan(date, time)) == Committed(db[LAST := LastTable(date, time)])
  {
    LastStatements(db, date, time);
    hide Apply, LastTable;
    var insert := Do(Insert(LAST, ["date", "time"], [date, time]), Commit);
    var create := Do(CreateTable(LAST, LAST_UPDATE_FIELDS), insert);
    var db2 := (db - {LAST})[LAST := Table(["date", "time"], NoKey, [])];
    assert Execute0(db - {LAST}, create) == Execute0(db2, insert);
    assert Execute0(db2, insert) == Execute0(db[LAST := LastTable(date, time)], Commit);
  }

  // ---------- The whole update ----------

  /** The tables a well-formed workbook puts in place of the current ones. */
  ghost function Stored(db: Tables, b: Workbook): Tables
    requires WellFormed(b)
  {
    db[TITLES := TitlesTable(b, Width(b))][STOCK := StockTable(b, |b.rows|)][LAST := LastTable(StampOf(b).0, StampOf(b).1)]
  }

  /** What the rows after the first do, without faults. */
  lemma {:induction false} LaterRowsStoreAll(b: Workbook, mid: Tables)
    requires WellFormed(b)
    ensures Execute0(mid, RowPlan(b, 1, AfterRow1(b))) == Committed(Stored(mid, b))
  {
    assert |b.rows| >= 3;
    hide WellFormed, RowPlan, CheckFree, LastTable, StockRows;
    var l := AfterTitles(b, Width(b));
    Row2IsStored(b, mid);
    var db2 := mid[TITLES := TitlesTable(b, Width(b))];
    Row3IsStored(b, db2);
    var db3 := db2[STOCK := StockTable(b, 3)];
    LaterRowsAreStored(b, db3, 3);
    var db4 := db2[STOCK := StockTable(b, |b.rows|)];
    assert db3[STOCK := StockTable(b, |b.rows|)] == db4;
    LastIsStored(db4, l.date, l.time);
  }

  ghost function FirstRowFree(db: Tables, b: Workbook): Checked
    requires WellFormed(b)
  {
    if HasStamp(b.rows[0]) then CheckFree(db, StampOf(b).0, StampOf(b).1) else Proceed(db, 0)
  }

  /** Without faults a well-formed workbook is either the stored snapshot, or is stored completely. */
  lemma WellFormedUpdate(b: Workbook, db: Tables, n: nat)
    requires WellFormed(b)
    ensures UpdateOutcome(NoFaults(), db, n, Some(b)) ==
            match FirstRowFree(db, b)
            case Same => Skipped
            case Proceed(mid, _) => Committed(Stored(mid, b))
  {
    hide WellFormed, RowPlan, CheckStamp, CheckFree, ExecutePlan, Execute0, Stored, StampOf, PlanOf, HasStamp, AfterRow1;
    PlanOfWellFormed(NoFaults(), db, n + 1, b);
    CheckIgnoresClock(db, n + 1, StampOf(b).0, StampOf(b).1);
    match FirstRow(NoFaults(), db, n + 1, b)
    case Same =>
    case Proceed(mid, n') =>
      NoFaultsNoClock(mid, n', RowPlan(b, 1, AfterRow1(b)));
      LaterRowsStoreAll(b, mid);
  }

  /** Where nothing is compared a commit leaves no trace of the faults. */
  lemma {:induction false} CommitIsFree(f: Faults, db: Tables, n: nat, p: Plan)
    requires NoCheck(p) && ExecutePlan(f, db, n, p).Committed?
    ensures Execute0(db, p) == ExecutePlan(f, db, n, p)
    decreases p
  {
    hide Apply;
    if p.Do? { CommitIsFree(f, Execute(f, db, n, p.statement).value, n + 1, p.next); }
  }

  /** Whatever faults it met, a committed Update has stored the workbook completely, on the tables the
      comparison left behind. */
  lemma CommittedUpdate(f: Faults, b: Workbook, db: Tables, n: nat)
    requires WellFormed(b) && UpdateOutcome(f, db, n, Some(b)).Committed?
    ensures var c := FirstRow(f, db, n + 1, b);
            c.Proceed? && UpdateOutcome(f, db, n, Some(b)) == Committed(Stored(c.db, b))
  {
    PlanOfWellFormed(f, db, n + 1, b);
    hide WellFormed, RowPlan, FirstRow, Execute0, ExecutePlan, Stored, PlanOf;
    var c := FirstRow(f, db, n + 1, b);
    CommitIsFree(f, c.db, c.n, RowPlan(b, 1, AfterRow1(b)));
    LaterRowsStoreAll(b, c.db);
  }

  // ---------- Reading it back ----------

  lemma TitlesReadBack(b: Workbook)
    requires WellFormed(b)
    ensures var rows := TitlesTable(b, Width(b)).rows; ReadTitles(rows, |rows|) == Titles(b)
  {
    hide CellsOf, ReadTitles;
    var rows := TitlesTable(b, Width(b)).rows;
    forall r | r in rows
      ensures "title" in r.cells
    {
      var j :| 0 <= j < |rows| && rows[j] == r;
      TitleCells(Refs(b)[j], TitleAt(b, j));
    }
    ReadCompleteTitles(rows, |rows|);
    forall j | 0 <= j < Width(b)
      ensures ReadTitles(rows, |rows|)[j] == Titles(b)[j]
    {
      TitleCells(Refs(b)[j], TitleAt(b, j));
    }
  }

  /** Columns up to number `m` are filled: what is shown of such a row. */
  /** Row `i` as stored: the row number and its cells, and nothing in the columns after them. */
  lemma FilledFrom(refs: seq<string>, row: Row, m: nat)
    requires "r" in row.cells && m <= |refs| && forall j :: 0 <= j < |refs| ==> (refs[j] in row.cells <==> j < m)
    ensures Filled(["r"] + refs, row, m)
  {
    var columns := ["r"] + refs;
    forall j | 0 <= j < |columns|
      ensures columns[j] in row.cells <==> j <= m
    {
      assert j > 0 ==> columns[j] == refs[j - 1];
    }
  }

  lemma StockRowIsFilled(b: Workbook, i: nat)
    requires WellFormed(b) && 2 <= i < |b.rows|
    ensures Filled(StockColumns(b), StockRow(b, i, |b.rows[i].cells|), |b.rows[i].cells|)
  {
    hide StockCells, WellFormed, ValueAt, Refs, Filled, Width, Header;
    var m := |b.rows[i].cells|;
    StockCellsAre(b, i, m);
    RefsAreWide(b);
    FilledFrom(Refs(b), StockRow(b, i, m), m);
  }

  lemma RefsAreWide(b: Workbook)
    requires |b.rows| >= 2
    ensures |Refs(b)| == Width(b)
  {
  }

  lemma StockRowIsShown(b: Workbook, i: nat)
    requires WellFormed(b) && 2 <= i < |b.rows|
    ensures var row, m := StockRow(b, i, |b.rows[i].cells|), |b.rows[i].cells|;
            Filled(StockColumns(b), row, m) && Shown(StockColumns(b), row, m) == ShownRow(b, i)
  {
    var m := |b.rows[i].cells|;
    var columns, row := StockColumns(b), StockRow(b, i, m);
    StockRowIsFilled(b, i);
    hide StockCells, WellFormed, ValueAt, Filled, Header, Width, Refs;
    StockCellsAre(b, i, m);
    RefsAreWide(b);
    forall j | 0 <= j < Width(b)
      ensures Shown(columns, row, m)[j] == ShownRow(b, i)[j]
    {
      var c := if j + 1 <= m then j + 1 else m;
      assert c > 0 ==> columns[c] == Refs(b)[c - 1];
    }
  }

  lemma {:induction false} StockReadsBack(b: Workbook, i: nat, value: string)
    requires WellFormed(b) && 2 <= i <= |b.rows|
    ensures var rows := StockRows(b, i); ReadRows(StockColumns(b), rows, |rows|, value) == ShownRows(b, i)
  {
    hide WellFormed, StockRow, ShownRow, StockColumns, Filled, Shown, ReadColumns;
    if i > 2 {
      StockReadsBack(b, i - 1, value);
      var rows, m := StockRows(b, i - 1), |b.rows[i - 1].cells|;
      if IsNumbered(b.rows[i - 1]) {
        var row := StockRow(b, i - 1, m);
        assert StockRows(b, i) == rows + [row];
        StockRowIsShown(b, i - 1);
        ReadOneMore(StockColumns(b), rows, row, m, value);
        hide ReadRows;
      } else {
        assert StockRows(b, i) == rows;
      }
    }
  }

  /** Wherever the two tables of a workbook are, they read back as its titles and data. */
  lemma PairReadsBack(b: Workbook, db: Tables, titles: string, stock: string, date: string, time: string)
    requires WellFormed(b) && titles in db && stock in db
    requires db[titles] == TitlesTable(b, Width(b)) && db[stock] == StockTable(b, |b.rows|)
    ensures ReadPair(db, titles, stock, date, time) == Data(Content(date, time, Titles(b), Values(b)))
  {
    assert |b.rows| >= 3;
    TitlesReadBack(b);
    var rows := TitlesTable(b, Width(b)).rows;
    StockReadsBack(b, |b.rows|, Carried(rows, "title", |rows|, ""));
    hide WellFormed, ReadTitles, ReadRows, StockRows, CellsOf, Carried, TitleRow;
    assert TitlesTable(b, Width(b)).columns == ["id", "title"] && ["id", "title"][1] == "title";
  }

  lemma StoredReadsBack(b: Workbook, db: Tables)
    requires WellFormed(b)
    ensures LatestData(Stored(db, b)) == Data(ContentOf(b))
  {
    assert |b.rows| >= 3;
    CurrentTablesDiffer();
    LastCells(StampOf(b).0, StampOf(b).1);
    hide WellFormed, ReadPair, TitlesTable, StockTable, CellsOf;
    PairReadsBack(b, Stored(db, b), TITLES, STOCK, StampOf(b).0, StampOf(b).1);
    assert LastTable(StampOf(b).0, StampOf(b).1).columns == ["date", "time"];
    assert ["date", "time"][0] == "date" && ["date", "time"][1] == "time";
  }

  lemma LastCells(date: string, time: string)
    ensures var row := LastTable(date, time).rows[0];
            Fetch(row, "date", "") == date && Fetch(row, "time", "") == time
  {
    assert "date"[0] != "time"[0];
    CellsOfDistinct(["date", "time"], [date, time]);
    assert ["date", "time"][0] in CellsOf(["date", "time"], [date, time]);
    assert ["date", "time"][1] in CellsOf(["date", "time"], [date, time]);
  }

  /** After a committed Update of a well-formed workbook, whatever failed and was swallowed in it, GetLatestData
      returns its date and time, the titles of row 2 in order, and the rows from the third on in order, without
      the row number column. Without faults such an Update never fails. */
  lemma SheetFidelity(f: Faults, b: Workbook, db: Tables, n: nat)
    requires WellFormed(b)
    ensures var outcome := UpdateOutcome(f, db, n, Some(b));
            outcome.Committed? ==> LatestData(outcome.db) == Data(ContentOf(b))
    ensures !UpdateOutcome(NoFaults(), db, n, Some(b)).Failed?
  {
    WellFormedUpdate(b, db, n);
    hide UpdateOutcome, FirstRowFree, FirstRow, LatestData, Stored, ContentOf, WellFormed;
    if UpdateOutcome(f, db, n, Some(b)).Committed? {
      CommittedUpdate(f, b, db, n);
      StoredReadsBack(b, FirstRow(f, db, n + 1, b).db);
    }
  }
}
