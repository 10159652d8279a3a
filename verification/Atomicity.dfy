/** Update is all or nothing, whichever statement fails, and a snapshot is stored only once. */
module Atomicity {
  import opened Text
  import opened Database
  import opened DbTables
  import opened Stamp
  import opened Ingest

  // ---------- What a workbook says its date and time are ----------

  /** Position of the first cell A1 holding a shared string, or the number of cells. */
  function FirstStamp(cells: seq<Cell>, j: nat): (k: nat)
    requires j <= |cells|
    ensures j <= k <= |cells|
    ensures k < |cells| ==> cells[k].ref == "A1" && cells[k].kind == "s"
    decreases |cells| - j
  {
    if j == |cells| || (cells[j].ref == "A1" && cells[j].kind == "s") then j else FirstStamp(cells, j + 1)
  }

  predicate HasStamp(row: SheetRow) {
    row.r == 1 && FirstStamp(row.cells, 0) < |row.cells|
  }

  /** The date and time texts once the rows from `i` on have been read, starting from `date` and `time`. */
  function StampFrom(b: Workbook, i: nat, date: string, time: string): (string, string)
    requires i <= |b.rows|
    decreases |b.rows| - i
  {
    if i == |b.rows| then (date, time)
    else
      var row := b.rows[i];
      if HasStamp(row) && Shared(b.sharedStrings, row.cells[FirstStamp(row.cells, 0)]).Some? then
        var v := Shared(b.sharedStrings, row.cells[FirstStamp(row.cells, 0)]).value;
        StampFrom(b, i + 1, Stamped(DateStamp, v, date), Stamped(TimeStamp, v, time))
      else StampFrom(b, i + 1, date, time)
  }

  function StampOf(b: Workbook): (string, string) {
    StampFrom(b, 0, "", "")
  }

  /** A date cell in row `i` or later. */
  ghost predicate StampAhead(b: Workbook, i: nat) {
    exists k :: i <= k < |b.rows| && HasStamp(b.rows[k])
  }

  lemma {:induction false} NoStampAhead(b: Workbook, i: nat, date: string, time: string)
    requires i <= |b.rows| && !StampAhead(b, i)
    ensures StampFrom(b, i, date, time) == (date, time)
    decreases |b.rows| - i
  {
    if i < |b.rows| { NoStampAhead(b, i + 1, date, time); }
  }

  // ---------- Where a plan compares ----------

  predicate NoCheck(p: Plan) {
    match p
    case Do(_, next) => NoCheck(next)
    case Check(_, _, _) => false
    case Throw => true
    case Commit => true
  }

  /** Without a date cell ahead there is no comparison ahead. */
  lemma {:induction false} RowPlanHasNoCheck(b: Workbook, i: nat, l: Local)
    requires i <= |b.rows| && !StampAhead(b, i)
    ensures NoCheck(RowPlan(b, i, l))
    decreases |b.rows| - i, 0, 1
  {
    if i == |b.rows| {
      var insert := Do(Insert(LAST, ["date", "time"], [l.date, l.time]), Commit);
      assert NoCheck(insert);
    } else {
      assert !HasStamp(b.rows[i]);
      var r, l' := b.rows[i].r, HeadLocal(b.rows[i].r, l);
      var next := CellPlan(b, i, 0, l');
      CellPlanHasNoCheck(b, i, 0, l');
      var insert := if r > 2 then Do(Insert(STOCK, ["r"], [IntToStr(r)]), next) else next;
      assert NoCheck(insert);
    }
  }

  lemma {:induction false} CellPlanHasNoCheck(b: Workbook, i: nat, j: nat, l: Local)
    requires i < |b.rows| && j <= |b.rows[i].cells| && !StampAhead(b, i + 1)
    requires b.rows[i].r == 1 ==> FirstStamp(b.rows[i].cells, j) == |b.rows[i].cells|
    ensures NoCheck(CellPlan(b, i, j, l))
    decreases |b.rows| - i, 0, 0, |b.rows[i].cells| - j
  {
    hide StampAhead;
    if j == |b.rows[i].cells| {
      RowPlanHasNoCheck(b, i + 1, l);
    } else {
      var a := CellAction(b.sharedStrings, b.rows[i].r, b.rows[i].cells[j], j, l);
      if a.Act? { CellPlanHasNoCheck(b, i, j + 1, a.local); }
    }
  }

  /** No statement stands ahead of a comparison. */
  predicate ComparesFirst(p: Plan) {
    match p
    case Check(_, _, next) => ComparesFirst(next)
    case _ => NoCheck(p)
  }

  /** No row with a number above 1 stands ahead of a date cell. */
  ghost predicate DatesFirst(b: Workbook) {
    forall i, k :: 0 <= i < k < |b.rows| && HasStamp(b.rows[k]) ==> b.rows[i].r <= 1
  }

  lemma {:induction false} DatesFirstComparesFirst(b: Workbook, i: nat, l: Local)
    requires i <= |b.rows| && DatesFirst(b) && l.ids == []
    ensures ComparesFirst(RowPlan(b, i, l))
    decreases |b.rows| - i, 0, 1
  {
    if StampAhead(b, i) {
      var k :| i <= k < |b.rows| && HasStamp(b.rows[k]);
      assert b.rows[i].r <= 1;
      CellPlanComparesFirst(b, i, 0, l);
    } else {
      RowPlanHasNoCheck(b, i, l);
    }
  }

  lemma {:induction false} CellPlanComparesFirst(b: Workbook, i: nat, j: nat, l: Local)
    requires i < |b.rows| && j <= |b.rows[i].cells| && DatesFirst(b) && b.rows[i].r <= 1 && l.ids == []
    ensures ComparesFirst(CellPlan(b, i, j, l))
    decreases |b.rows| - i, 0, 0, |b.rows[i].cells| - j
  {
    hide DatesFirst, Stamped;
    if j == |b.rows[i].cells| {
      DatesFirstComparesFirst(b, i + 1, l);
    } else {
      var a := CellAction(b.sharedStrings, b.rows[i].r, b.rows[i].cells[j], j, l);
      if a.Act? {
        if a.brk { DatesFirstComparesFirst(b, i + 1, a.local); } else { CellPlanComparesFirst(b, i, j + 1, a.local); }
      }
    }
  }

  lemma {:induction false} SkipToStamp(b: Workbook, j: nat, l: Local)
    requires b.rows != [] && HasStamp(b.rows[0]) && j <= FirstStamp(b.rows[0].cells, 0)
    requires FirstStamp(b.rows[0].cells, j) == FirstStamp(b.rows[0].cells, 0)
    ensures CellPlan(b, 0, j, l) == CellPlan(b, 0, FirstStamp(b.rows[0].cells, 0), l)
    decreases |b.rows[0].cells| - j
  {
    hide Stamped;
    if j < FirstStamp(b.rows[0].cells, 0) { SkipToStamp(b, j + 1, l); }
  }

  /** A date cell in the first row makes the comparison the first thing the plan does. */
  lemma {:induction false} PlanOfFirstRow(b: Workbook)
    requires b.rows != [] && HasStamp(b.rows[0])
    ensures PlanOf(b) ==
            match Shared(b.sharedStrings, b.rows[0].cells[FirstStamp(b.rows[0].cells, 0)])
            case None => Throw
            case Some(v) =>
              var date, time := Stamped(DateStamp, v, ""), Stamped(TimeStamp, v, "");
              Check(date, time, RowPlan(b, 1, START.(date := date, time := time)))
  {
    hide Stamped;
    SkipToStamp(b, 0, START);
  }

  /** LAST_UPDATE with its one row. */
  function LastTable(date: string, time: string): Table {
    Table(["date", "time"], NoKey, [Row(1, CellsOf(["date", "time"], [date, time]))])
  }

  // ---------- Effects ----------

  function ApplyAll(db: Tables, statements: seq<Statement>, k: nat): Option<Tables>
    requires k <= |statements|
  {
    if k == 0 then Some(db)
    else
      match ApplyAll(db, statements, k - 1)
      case None => None
      case Some(db') => Apply(db', statements[k - 1])
  }

  /** What the inner try may leave behind: nothing done, or a successful beginning of the rotation of the
      date in LAST_UPDATE, which is then not the date of the workbook. */
  ghost predicate Rotated(db: Tables, date: string, db': Tables) {
    db' == db ||
    exists d: string, t: string, k: nat ::
      LAST in db && db[LAST].rows != [] && d == Fetch(db[LAST].rows[0], "date", "") && d != date &&
      t == Fetch(db[LAST].rows[0], "time", "") && k <= 3 && ApplyAll(db, RotationStatements(d, t), k) == Some(db')
  }

  /** Every statement of the plan took effect, from `db` to `db'`. */
  ghost predicate Effective(p: Plan, db: Tables, db': Tables) {
    match p
    case Do(s, next) => Apply(db, s).Some? && Effective(next, Apply(db, s).value, db')
    case Check(date, _, next) => exists mid: Tables :: Rotated(db, date, mid) && Effective(next, mid, db')
    case Throw => false
    case Commit => db' == db
  }

  lemma CheckRotates(f: Faults, db: Tables, n: nat, date: string, time: string)
    requires CheckStamp(f, db, n, date, time).Proceed?
    ensures Rotated(db, date, CheckStamp(f, db, n, date, time).db)
  {
    hide Apply, TableFromDate;
    var db' := CheckStamp(f, db, n, date, time).db;
    if db' != db {
      var row := db[LAST].rows[0];
      var d, t := Fetch(row, "date", ""), Fetch(row, "time", "");
      var s := RotationStatements(d, t);
      TryThree(f, db, n + 1, s[0], s[1], s[2]);
      hide TryAll;
      var k := if Execute(f, db, n + 1, s[0]).None? then 0
               else
                 var db1 := Execute(f, db, n + 1, s[0]).value;
                 if Execute(f, db1, n + 2, s[1]).None? then 1
                 else if Execute(f, Execute(f, db1, n + 2, s[1]).value, n + 3, s[2]).None? then 2 else 3;
      ApplyAllThree(db, s);
      assert ApplyAll(db, s, k) == Some(db');
    }
  }

  lemma {:induction false} ApplyAllThree(db: Tables, s: seq<Statement>)
    requires |s| == 3
    ensures ApplyAll(db, s, 0) == Some(db)
    ensures ApplyAll(db, s, 1) == Apply(db, s[0])
    ensures ApplyAll(db, s, 2) == if ApplyAll(db, s, 1).None? then None else Apply(ApplyAll(db, s, 1).value, s[1])
    ensures ApplyAll(db, s, 3) == if ApplyAll(db, s, 2).None? then None else Apply(ApplyAll(db, s, 2).value, s[2])
  {
    hide Apply;
  }

  lemma {:induction false} CommitMeansEffective(f: Faults, db: Tables, n: nat, p: Plan)
    requires ExecutePlan(f, db, n, p).Committed?
    ensures Effective(p, db, ExecutePlan(f, db, n, p).db)
    decreases p
  {
    hide Apply, CheckStamp, Rotated;
    match p
    case Do(s, next) => CommitMeansEffective(f, Execute(f, db, n, s).value, n + 1, next);
    case Check(date, time, next) =>
      var c := CheckStamp(f, db, n, date, time);
      CheckRotates(f, db, n, date, time);
      CommitMeansEffective(f, c.db, c.n, next);
      assert Effective(next, c.db, ExecutePlan(f, db, n, p).db);
    case Commit =>
  }

  // ---------- The last statements ----------

  lemma LastStatements(db: Tables, date: string, time: string)
    ensures var db1 := db - {LAST};
            var db2 := db1[LAST := Table(["date", "time"], NoKey, [])];
            Apply(db, DropTable(LAST)) == Some(db1) &&
            Apply(db1, CreateTable(LAST, LAST_UPDATE_FIELDS)) == Some(db2) &&
            Apply(db2, Insert(LAST, ["date", "time"], [date, time])) == Some(db[LAST := LastTable(date, time)])
  {
    var db1 := db - {LAST};
    var db2 := db1[LAST := Table(["date", "time"], NoKey, [])];
    assert Columns(LAST_UPDATE_FIELDS) == LAST_UPDATE_FIELDS;
    assert FieldNames(LAST_UPDATE_FIELDS) == ["date", "time"];
    assert "date"[0] != "time"[0];
    assert Apply(db1, CreateTable(LAST, LAST_UPDATE_FIELDS)) == Some(db2);
    hide CellsOf;
    var row := Row(1, CellsOf(["date", "time"], [date, time]));
    assert InsertRow([], row) == [row];
    assert db2[LAST := LastTable(date, time)] == db[LAST := LastTable(date, time)];
  }

  lemma {:induction false} FinalIsEffective(db: Tables, db': Tables, date: string, time: string)
    requires Effective(FinalPlan(date, time), db, db')
    ensures db' == db[LAST := LastTable(date, time)]
  {
    LastStatements(db, date, time);
    hide Apply, LastTable;
    var insert := Do(Insert(LAST, ["date", "time"], [date, time]), Commit);
    var create := Do(CreateTable(LAST, LAST_UPDATE_FIELDS), insert);
    var db1 := db - {LAST};
    var db2 := db1[LAST := Table(["date", "time"], NoKey, [])];
    assert Effective(create, db1, db');
    assert Effective(insert, db2, db');
    assert Effective(Commit, db[LAST := LastTable(date, time)], db');
  }

  /** A row before whose cells the plan stands leads to the rest of the plan, from some tables. */
  lemma {:induction false} HeadIsEffective(r: int, fields: seq<Field>, next: Plan, db: Tables, db': Tables)
    requires Effective(HeadPlan(r, fields, next), db, db')
    ensures exists mid: Tables :: Effective(next, mid, db')
  {
    hide Apply;
    var insert := if r > 2 then Do(Insert(STOCK, ["r"], [IntToStr(r)]), next) else next;
    var mid :| Effective(insert, mid, db') by {
      if r == 2 {
        var d1 := Apply(db, DropTable(TITLES)).value;
        assert Effective(Do(CreateTable(TITLES, DATA_TITLES_FIELDS), insert), d1, db');
        assert Effective(insert, Apply(d1, CreateTable(TITLES, DATA_TITLES_FIELDS)).value, db');
      } else if r == 3 {
        var d1 := Apply(db, DropTable(STOCK)).value;
        assert Effective(Do(CreateTable(STOCK, fields), insert), d1, db');
        assert Effective(insert, Apply(d1, CreateTable(STOCK, fields)).value, db');
      } else {
        assert Effective(insert, db, db');
      }
    }
    if r > 2 {
      assert Effective(Do(Insert(STOCK, ["r"], [IntToStr(r)]), next), mid, db');
      assert Effective(next, Apply(mid, Insert(STOCK, ["r"], [IntToStr(r)])).value, db');
    }
  }

  lemma {:induction false} RowEndsStamped(b: Workbook, i: nat, l: Local, db: Tables, db': Tables)
    requires i <= |b.rows| && Effective(RowPlan(b, i, l), db, db')
    ensures LAST in db' && var (date, time) := StampFrom(b, i, l.date, l.time); db'[LAST] == LastTable(date, time)
    decreases |b.rows| - i, 0, 1
  {
    hide LastTable, Apply;
    if i == |b.rows| {
      FinalIsEffective(db, db', l.date, l.time);
    } else {
      var l' := HeadLocal(b.rows[i].r, l);
      HeadIsEffective(b.rows[i].r, l'.fields, CellPlan(b, i, 0, l'), db, db');
      var mid :| Effective(CellPlan(b, i, 0, l'), mid, db');
      CellEndsStamped(b, i, 0, l', mid, db');
    }
  }

  lemma {:induction false} CellEndsStamped(b: Workbook, i: nat, j: nat, l: Local, db: Tables, db': Tables)
    requires i < |b.rows| && j <= |b.rows[i].cells| && Effective(CellPlan(b, i, j, l), db, db')
    requires b.rows[i].r == 1 ==> FirstStamp(b.rows[i].cells, j) == FirstStamp(b.rows[i].cells, 0)
    ensures LAST in db' && var (date, time) := StampFrom(b, i, l.date, l.time); db'[LAST] == LastTable(date, time)
    decreases |b.rows| - i, 0, 0, |b.rows[i].cells| - j
  {
    hide LastTable, Apply, Stamped, Rotated;
    var row := b.rows[i];
    if j == |row.cells| {
      RowEndsStamped(b, i + 1, l, db, db');
    } else {
      var a := CellAction(b.sharedStrings, row.r, row.cells[j], j, l);
      match a
      case Abort =>
      case Act(item, l', brk) =>
        var next := if brk then RowPlan(b, i + 1, l') else CellPlan(b, i, j + 1, l');
        var mid :| Effective(next, mid, db') by {
          match item
          case Nothing => assert Effective(next, db, db');
          case Run(s) => assert Effective(next, Apply(db, s).value, db');
          case Compare(_, _) =>
        }
        if brk { RowEndsStamped(b, i + 1, l', mid, db'); } else { CellEndsStamped(b, i, j + 1, l', mid, db'); }
    }
  }

  // ---------- Atomicity ----------

  /** With faults at any statements, an Update either changes nothing, or every statement of its plan took
      effect and LAST_UPDATE holds one row, the date and time of the workbook. */
  lemma {:induction false} UpdateIsAtomic(f: Faults, db: Tables, n: nat, book: Option<Workbook>)
    ensures var outcome := UpdateOutcome(f, db, n, book);
            var db' := After(outcome, db);
            if outcome.Committed?
            then book.Some? && Effective(PlanOf(book.value), db, db') && LAST in db' &&
                 db'[LAST] == LastTable(StampOf(book.value).0, StampOf(book.value).1)
            else db' == db
  {
    hide ExecutePlan, Effective, RowPlan, LastTable;
    var outcome := UpdateOutcome(f, db, n, book);
    if outcome.Committed? {
      CommitMeansEffective(f, db, n + 1, PlanOf(book.value));
      RowEndsStamped(book.value, 0, START, db, outcome.db);
    }
  }
}
