/** StockUpdateWorker::Impl::Update: reading a decoded workbook into the database inside one transaction.
    The plan of a workbook is what its rows demand, worked out without looking at the database; executing
    the plan is what Update does to the database, statement by statement, under any pattern of faults. */
module Ingest {
  import opened Text
  import opened Database
  import opened DbTables
  import opened Stamp

  // ---------- Decoded workbooks ----------

  /** A `c` element: its reference, its type, and its value read as an index and as a number (None where
      reading it throws). `number` is the text lexical_cast makes of the double. */
  datatype Cell = Cell(ref: string, kind: string, index: Option<nat>, number: Option<string>)

  /** `r` is -1 where the attribute is missing or unreadable. */
  datatype SheetRow = SheetRow(r: int, cells: seq<Cell>)

  datatype Workbook = Workbook(sharedStrings: seq<string>, rows: seq<SheetRow>)

  /** sharedStrings[v]; None where reading v throws or v is out of range. */
  function Shared(strings: seq<string>, c: Cell): Option<string> {
    if c.index.Some? && c.index.value < |strings| then Some(strings[c.index.value]) else None
  }

  // ---------- The plan ----------

  datatype Plan =
    | Do(statement: Statement, next: Plan)
    | Check(date: string, time: string, next: Plan)  // compare with LAST_UPDATE, rotate if the date changed
    | Throw
    | Commit

  /** The local variables of Update that live across rows. */
  datatype Local = Local(date: string, time: string, fields: seq<Field>, ids: seq<string>)

  const START := Local("", "", [IntegerColumn("r")], [])

  datatype Item = Nothing | Run(statement: Statement) | Compare(date: string, time: string)

  /** What one cell makes Update do: throw, or one item; `brk` leaves the row. */
  datatype Action = Abort | Act(item: Item, local: Local, brk: bool)

  function CellAction(strings: seq<string>, r: int, c: Cell, col: nat, l: Local): Action {
    if r == 1 then
      if c.ref == "A1" && c.kind == "s" then
        match Shared(strings, c)
        case None => Abort
        case Some(v) =>
          var l' := l.(date := Stamped(DateStamp, v, l.date), time := Stamped(TimeStamp, v, l.time));
          Act(Compare(l'.date, l'.time), l', true)
      else Act(Nothing, l, false)
    else if r == 2 then
      if c.kind == "s" then
        match Shared(strings, c)
        case None => Abort
        case Some(v) =>
          Act(Run(Insert(TITLES, ["id", "title"], [c.ref, v])),
              l.(ids := l.ids + [c.ref], fields := l.fields + [TextColumn(c.ref)]), false)
      else Act(Nothing, l, false)
    else
      match (if c.kind == "s" then Shared(strings, c) else c.number)
      case None => Abort
      case Some(v) =>
        if col < |l.ids| then Act(Run(Update(STOCK, "r", IntToStr(r), l.ids[col], v)), l, false) else Abort
  }

  function Prepend(item: Item, next: Plan): Plan {
    match item
    case Nothing => next
    case Run(s) => Do(s, next)
    case Compare(date, time) => Check(date, time, next)
  }

  function HeadLocal(r: int, l: Local): Local {
    if r == 3 then l.(fields := l.fields + [PrimaryKey("r")]) else l
  }

  /** What the start of a row makes Update do; `fields` already holds the key that row 3 adds. */
  function HeadPlan(r: int, fields: seq<Field>, next: Plan): Plan {
    var insert := if r > 2 then Do(Insert(STOCK, ["r"], [IntToStr(r)]), next) else next;
    if r == 2 then Do(DropTable(TITLES), Do(CreateTable(TITLES, DATA_TITLES_FIELDS), insert))
    else if r == 3 then Do(DropTable(STOCK), Do(CreateTable(STOCK, fields), insert))
    else insert
  }

  function FinalPlan(date: string, time: string): Plan {
    Do(DropTable(LAST), Do(CreateTable(LAST, LAST_UPDATE_FIELDS), Do(Insert(LAST, ["date", "time"], [date, time]), Commit)))
  }

  /** The plan from row `i` on. */
  function RowPlan(b: Workbook, i: nat, l: Local): Plan
    requires i <= |b.rows|
    decreases |b.rows| - i, 0, 1
  {
    if i == |b.rows| then FinalPlan(l.date, l.time)
    else
      var l' := HeadLocal(b.rows[i].r, l);
      HeadPlan(b.rows[i].r, l'.fields, CellPlan(b, i, 0, l'))
  }

  /** The plan from cell `j` of row `i` on. */
  function CellPlan(b: Workbook, i: nat, j: nat, l: Local): Plan
    requires i < |b.rows| && j <= |b.rows[i].cells|
    decreases |b.rows| - i, 0, 0, |b.rows[i].cells| - j
  {
    if j == |b.rows[i].cells| then RowPlan(b, i + 1, l)
    else
      match CellAction(b.sharedStrings, b.rows[i].r, b.rows[i].cells[j], j, l)
      case Abort => Throw
      case Act(item, l', brk) => Prepend(item, if brk then RowPlan(b, i + 1, l') else CellPlan(b, i, j + 1, l'))
  }

  function PlanOf(b: Workbook): Plan {
    RowPlan(b, 0, START)
  }

  // ---------- Executing a plan ----------

  /** Skipped: the snapshot is the one already stored. Failed: an exception; the transaction is rolled back. */
  datatype Outcome = Committed(db: Tables) | Skipped | Failed

  function RotationStatements(date: string, time: string): seq<Statement> {
    var titles, stock := TableFromDate("DATA_TITLES", date), TableFromDate("STOCK_DATA", date);
    [RenameTable(STOCK, stock), RenameTable(TITLES, titles),
     Insert(ARCHIVE, ["date", "time", "datatitlestbl", "stockdatatbl"], [date, time, titles, stock])]
  }

  /** Statements inside the inner try: the first failure skips the rest, and nothing is undone. */
  function TryAll(f: Faults, db: Tables, n: nat, statements: seq<Statement>): (Tables, nat)
    decreases |statements|
  {
    if statements == [] then (db, n)
    else
      match Execute(f, db, n, statements[0])
      case None => (db, n + 1)
      case Some(db') => TryAll(f, db', n + 1, statements[1..])
  }

  lemma {:induction false} TryThree(f: Faults, db: Tables, n: nat, a: Statement, b: Statement, c: Statement)
    ensures TryAll(f, db, n, [a, b, c]) ==
            match Execute(f, db, n, a)
            case None => (db, n + 1)
            case Some(db1) =>
              match Execute(f, db1, n + 1, b)
              case None => (db1, n + 2)
              case Some(db2) =>
                match Execute(f, db2, n + 2, c)
                case None => (db2, n + 3)
                case Some(db3) => (db3, n + 3)
  {
    hide Apply;
    assert [a, b, c][1..] == [b, c] && [b, c][1..] == [c] && [c][1..] == [];
    assert forall d: Tables, m: nat ::
      TryAll(f, d, m, [c]) == (match Execute(f, d, m, c) case None => (d, m + 1) case Some(d') => (d', m + 1));
  }

  datatype Checked = Same | Proceed(db: Tables, n: nat)

  function CheckStamp(f: Faults, db: Tables, n: nat, date: string, time: string): Checked {
    var rows := if f(n) then None else Select(db, LAST, ["date", "time"]);
    if rows.None? || rows.value == [] then Proceed(db, n + 1)
    else
      var d, t := Fetch(rows.value[0], "date", ""), Fetch(rows.value[0], "time", "");
      if d == date && t == time then Same
      else if d == date then Proceed(db, n + 1)
      else
        var (db', n') := TryAll(f, db, n + 1, RotationStatements(d, t));
        Proceed(db', n')
  }

  function ExecutePlan(f: Faults, db: Tables, n: nat, p: Plan): Outcome
    decreases p
  {
    match p
    case Throw => Failed
    case Commit => if f(n) then Failed else Committed(db)
    case Do(s, next) =>
      (match Execute(f, db, n, s)
       case None => Failed
       case Some(db') => ExecutePlan(f, db', n + 1, next))
    case Check(date, time, next) =>
      (match CheckStamp(f, db, n, date, time)
       case Same => Skipped
       case Proceed(db', n') => ExecutePlan(f, db', n', next))
  }

  /** One Update; `book` is None when the download or the unpacking failed. */
  function UpdateOutcome(f: Faults, db: Tables, n: nat, book: Option<Workbook>): Outcome {
    if book.None? || f(n) then Failed else ExecutePlan(f, db, n + 1, PlanOf(book.value))
  }

  function After(outcome: Outcome, db: Tables): Tables {
    if outcome.Committed? then outcome.db else db
  }

  // ---------- The method ----------

  ghost predicate HasFields(t: DBTables)
    reads t
  {
    t.Fields("LAST_UPDATE") == LAST_UPDATE_FIELDS && t.Fields("DATA_TITLES") == DATA_TITLES_FIELDS
  }

  /** A statement outside the inner try: its failure ends Update. `next` is the rest of the plan. */
  method Must(db: DB, s: Statement, ghost next: Plan) returns (ok: bool)
    modifies db
    ensures db.saved == old(db.saved)
    ensures ExecutePlan(db.faults, old(db.tables), old(db.clock), Do(s, next)) ==
            if ok then ExecutePlan(db.faults, db.tables, db.clock, next) else Failed
  {
    hide Apply;
    ok := db.Exec(s);
  }

  method RowHead(db: DB, tables: DBTables, r: int, l: Local, ghost next: Plan) returns (ok: bool, l': Local)
    requires HasFields(tables)
    modifies db, tables
    ensures HasFields(tables) && db.saved == old(db.saved) && l' == HeadLocal(r, l)
    ensures ExecutePlan(db.faults, old(db.tables), old(db.clock), HeadPlan(r, l'.fields, next)) ==
            if ok then ExecutePlan(db.faults, db.tables, db.clock, next) else Failed
  {
    hide ExecutePlan;
    l' := HeadLocal(r, l);
    ok := true;
    ghost var insert := if r > 2 then Do(Insert(STOCK, ["r"], [IntToStr(r)]), next) else next;
    if r == 2 {
      ok := Must(db, DropTable(TITLES), Do(CreateTable(TITLES, DATA_TITLES_FIELDS), insert));
      if !ok { return; }
      ok := Must(db, CreateTable(TITLES, tables.Fields("DATA_TITLES")), insert);
      if !ok { return; }
    } else if r == 3 {
      tables.SetFields("STOCK_DATA", l'.fields);
      ok := Must(db, DropTable(STOCK), Do(CreateTable(STOCK, l'.fields), insert));
      if !ok { return; }
      ok := Must(db, CreateTable(STOCK, tables.Fields("STOCK_DATA")), insert);
      if !ok { return; }
    }
    if r > 2 {
      ok := Must(db, Insert(STOCK, ["r"], [IntToStr(r)]), next);
    }
  }

  /** The inner try of row 1: whatever fails in it is swallowed. */
  method CompareWithLast(db: DB, date: string, time: string) returns (same: bool)
    modifies db
    ensures db.saved == old(db.saved)
    ensures match CheckStamp(db.faults, old(db.tables), old(db.clock), date, time)
            case Same => same
            case Proceed(tables, n) => !same && db.tables == tables && db.clock == n
  {
    hide Apply, TableFromDate, TryAll;
    same := false;
    var rows := db.Query(LAST, ["date", "time"]);
    if rows.None? || rows.value == [] {
      return;
    }
    var lastDate, lastTime := Fetch(rows.value[0], "date", ""), Fetch(rows.value[0], "time", "");
    if lastDate == date && lastTime == time {
      same := true;
    } else if lastDate != date {
      var s := RotationStatements(lastDate, lastTime);
      TryThree(db.faults, db.tables, db.clock, s[0], s[1], s[2]);
      var ok := db.Exec(s[0]);
      if !ok { return; }
      ok := db.Exec(s[1]);
      if !ok { return; }
      ok := db.Exec(s[2]);
    }
  }

  datatype Progress = Going | Over(outcome: Outcome)

  method OneCell(db: DB, strings: seq<string>, r: int, c: Cell, col: nat, l: Local, ghost next: Plan)
    returns (p: Progress, l': Local, brk: bool)
    modifies db
    ensures db.saved == old(db.saved)
    ensures match CellAction(strings, r, c, col, l)
            case Abort => p == Over(Failed)
            case Act(item, after, leave) =>
              l' == after && brk == leave &&
              ExecutePlan(db.faults, old(db.tables), old(db.clock), Prepend(item, next)) ==
              if p == Going then ExecutePlan(db.faults, db.tables, db.clock, next) else p.outcome
    ensures p.Over? ==> !p.outcome.Committed?
  {
    hide Apply, CheckStamp, Stamped;
    p, l', brk := Over(Failed), l, false;
    if r == 1 {
      if c.ref == "A1" && c.kind == "s" {
        var v := Shared(strings, c);
        if v.None? { return; }
        l' := l.(date := Stamped(DateStamp, v.value, l.date), time := Stamped(TimeStamp, v.value, l.time));
        var same := CompareWithLast(db, l'.date, l'.time);
        p, brk := if same then Over(Skipped) else Going, true;
      } else {
        p := Going;
      }
    } else if r == 2 {
      if c.kind == "s" {
        var v := Shared(strings, c);
        if v.None? { return; }
        var ok := db.Exec(Insert(TITLES, ["id", "title"], [c.ref, v.value]));
        l' := l.(ids := l.ids + [c.ref], fields := l.fields + [TextColumn(c.ref)]);
        p := if ok then Going else Over(Failed);
      } else {
        p := Going;
      }
    } else {
      var v := if c.kind == "s" then Shared(strings, c) else c.number;
      if v.None? || col >= |l.ids| { return; }
      var ok := db.Exec(Update(STOCK, "r", IntToStr(r), l.ids[col], v.value));
      p := if ok then Going else Over(Failed);
    }
  }

  method OneRow(db: DB, tables: DBTables, b: Workbook, i: nat, l: Local) returns (p: Progress, l': Local)
    requires i < |b.rows| && HasFields(tables)
    modifies db, tables
    ensures HasFields(tables) && db.saved == old(db.saved)
    ensures ExecutePlan(db.faults, old(db.tables), old(db.clock), RowPlan(b, i, l)) ==
            if p == Going then ExecutePlan(db.faults, db.tables, db.clock, RowPlan(b, i + 1, l')) else p.outcome
    ensures p.Over? ==> !p.outcome.Committed?
  {
    hide HeadPlan, CellAction, Prepend, ExecutePlan;
    var row := b.rows[i];
    var ok;
    ok, l' := RowHead(db, tables, row.r, l, CellPlan(b, i, 0, HeadLocal(row.r, l)));
    p := if ok then Going else Over(Failed);
    ghost var goal := ExecutePlan(db.faults, old(db.tables), old(db.clock), RowPlan(b, i, l));
    var col := 0;
    var brk := false;
    while p == Going && !brk && col < |row.cells|
      invariant HasFields(tables) && db.saved == old(db.saved) && col <= |row.cells|
      invariant p == Going ==> goal == ExecutePlan(db.faults, db.tables, db.clock,
                                                   if brk then RowPlan(b, i + 1, l') else CellPlan(b, i, col, l'))
      invariant p.Over? ==> goal == p.outcome && !p.outcome.Committed?
      decreases |row.cells| - col
    {
      ghost var a := CellAction(b.sharedStrings, row.r, row.cells[col], col, l');
      ghost var next := if a.Abort? then Throw
                        else if a.brk then RowPlan(b, i + 1, a.local) else CellPlan(b, i, col + 1, a.local);
      ThrowFails(db.faults, db.tables, db.clock);
      p, l', brk := OneCell(db, b.sharedStrings, row.r, row.cells[col], col, l', next);
      col := col + 1;
    }
  }

  lemma {:induction false} ThrowFails(f: Faults, db: Tables, n: nat)
    ensures ExecutePlan(f, db, n, Throw) == Failed
  {
  }

  method Finish(db: DB, tables: DBTables, date: string, time: string) returns (outcome: Outcome)
    requires HasFields(tables) && db.saved.Some?
    modifies db
    ensures outcome == ExecutePlan(db.faults, old(db.tables), old(db.clock), FinalPlan(date, time))
    ensures outcome.Committed? ==> db.tables == outcome.db && db.saved == None
    ensures !outcome.Committed? ==> db.saved == old(db.saved)
  {
    hide Execute;
    outcome := Failed;
    ghost var insert := Do(Insert(LAST, ["date", "time"], [date, time]), Commit);
    var ok := Must(db, DropTable(LAST), Do(CreateTable(LAST, LAST_UPDATE_FIELDS), insert));
    if !ok { return; }
    ok := Must(db, CreateTable(LAST, tables.Fields("LAST_UPDATE")), insert);
    if !ok { return; }
    ok := Must(db, Insert(LAST, ["date", "time"], [date, time]), Commit);
    if !ok { return; }
    ok := db.Commit();
    if ok { outcome := Committed(db.tables); }
  }

  /** Update as a whole: the tables afterwards are those of the outcome computed from the plan, and no
      transaction is left open. */
  method UpdateDatabase(db: DB, tables: DBTables, book: Option<Workbook>) returns (outcome: Outcome)
    requires db.saved == None && HasFields(tables)
    modifies db, tables
    ensures outcome == UpdateOutcome(db.faults, old(db.tables), old(db.clock), book)
    ensures db.saved == None && db.tables == After(outcome, old(db.tables))
    ensures HasFields(tables)
  {
    hide ExecutePlan, FinalPlan, CellPlan, HeadPlan;
    outcome := Failed;
    if book.None? {
      return;
    }
    var b := book.value;
    var ok := db.Begin();
    if !ok {
      return;
    }
    ghost var goal := ExecutePlan(db.faults, db.tables, db.clock, PlanOf(b));
    var l, p, i := START, Going, 0;
    while p == Going && i < |b.rows|
      invariant HasFields(tables) && db.saved == Some(old(db.tables)) && i <= |b.rows|
      invariant p == Going ==> goal == ExecutePlan(db.faults, db.tables, db.clock, RowPlan(b, i, l))
      invariant p.Over? ==> goal == p.outcome && !p.outcome.Committed?
      decreases |b.rows| - i
    {
      p, l := OneRow(db, tables, b, i, l);
      i := i + 1;
    }
    if p == Going {
      outcome := Finish(db, tables, l.date, l.time);
    } else {
      outcome := p.outcome;
    }
    if !outcome.Committed? {
      db.Rollback();
    }
  }
}
