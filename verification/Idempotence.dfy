/** Storing the same workbook again: the second Update commits only when the query that decides fails, and for
    a well-formed workbook changes nothing even then. */
module Idempotence {
  import opened Text
  import opened Database
  import opened DbTables
  import opened Stamp
  import opened Ingest
  import opened Archive
  import opened Atomicity
  import opened Fidelity

  // ---------- LAST_UPDATE is only written at the end ----------

  ghost predicate SameLast(db: Tables, db': Tables) {
    LAST in db && LAST in db' && db'[LAST] == db[LAST]
  }

  lemma StatementKeepsLast(db: Tables, s: Statement)
    requires LAST in db && s.table != LAST && (s.RenameTable? ==> s.newTable != LAST) && Apply(db, s).Some?
    ensures SameLast(db, Apply(db, s).value)
  {
    ApplyFrame(db, s, LAST);
  }

  lemma CheckKeepsLast(f: Faults, db: Tables, n: nat, date: string, time: string)
    requires LAST in db && CheckStamp(f, db, n, date, time).Proceed?
    ensures SameLast(db, CheckStamp(f, db, n, date, time).db)
  {
    hide Apply, TableFromDate, TryAll;
    var rows := if f(n) then None else Select(db, LAST, ["date", "time"]);
    if rows.Some? && rows.value != [] {
      var d, t := Fetch(rows.value[0], "date", ""), Fetch(rows.value[0], "time", "");
      var s := RotationStatements(d, t);
      TryThree(f, db, n + 1, s[0], s[1], s[2]);
      CurrentTablesDiffer();
      DatedNamesAreNotCurrent("STOCK_DATA", d);
      DatedNamesAreNotCurrent("DATA_TITLES", d);
      if Execute(f, db, n + 1, s[0]).Some? {
        var db1 := Execute(f, db, n + 1, s[0]).value;
        StatementKeepsLast(db, s[0]);
        if Execute(f, db1, n + 2, s[1]).Some? {
          var db2 := Execute(f, db1, n + 2, s[1]).value;
          StatementKeepsLast(db1, s[1]);
          if Execute(f, db2, n + 3, s[2]).Some? { StatementKeepsLast(db2, s[2]); }
        }
      }
    }
  }

  // ---------- The comparison that decides ----------

  predicate EndsInCommit(p: Plan) {
    match p
    case Do(_, next) => EndsInCommit(next)
    case Check(_, _, next) => EndsInCommit(next)
    case Throw => false
    case Commit => true
  }

  lemma {:induction false} CommittedEnds(f: Faults, db: Tables, n: nat, p: Plan)
    requires ExecutePlan(f, db, n, p).Committed?
    ensures EndsInCommit(p)
    decreases p
  {
    hide Apply, CheckStamp;
    match p
    case Do(s, next) => CommittedEnds(f, Execute(f, db, n, s).value, n + 1, next);
    case Check(date, time, next) =>
      var c := CheckStamp(f, db, n, date, time);
      CommittedEnds(f, c.db, c.n, next);
    case Commit =>
  }

  /** The last comparison of a plan is with `date` and `time`, and nothing before it writes LAST_UPDATE. */
  ghost predicate DecidedBy(p: Plan, date: string, time: string) {
    match p
    case Do(s, next) => s.table != LAST && !s.RenameTable? && DecidedBy(next, date, time)
    case Check(d, t, next) => if NoCheck(next) then d == date && t == time else DecidedBy(next, date, time)
    case _ => false
  }

  lemma {:induction false} DecidedCompares(p: Plan, date: string, time: string)
    requires DecidedBy(p, date, time)
    ensures !NoCheck(p)
  {
    if p.Do? { DecidedCompares(p.next, date, time); }
  }

  lemma {:induction false} HeadIsDecided(r: int, fields: seq<Field>, next: Plan, date: string, time: string)
    requires DecidedBy(next, date, time)
    ensures DecidedBy(HeadPlan(r, fields, next), date, time)
  {
    CurrentTablesDiffer();
    var insert := if r > 2 then Do(Insert(STOCK, ["r"], [IntToStr(r)]), next) else next;
    assert DecidedBy(insert, date, time);
  }

  lemma {:induction false} HeadEnds(r: int, fields: seq<Field>, next: Plan)
    requires EndsInCommit(HeadPlan(r, fields, next))
    ensures EndsInCommit(next)
  {
    var insert := if r > 2 then Do(Insert(STOCK, ["r"], [IntToStr(r)]), next) else next;
    assert EndsInCommit(insert);
  }

  /** The last date cell decides: its date and time are those the workbook is stored under. */
  lemma {:induction false} RowIsDecided(b: Workbook, i: nat, l: Local)
    requires i <= |b.rows| && StampAhead(b, i) && EndsInCommit(RowPlan(b, i, l))
    ensures DecidedBy(RowPlan(b, i, l), StampFrom(b, i, l.date, l.time).0, StampFrom(b, i, l.date, l.time).1)
    decreases |b.rows| - i, 0, 1
  {
    hide HeadPlan, CellPlan, EndsInCommit, Stamped;
    var r, l' := b.rows[i].r, HeadLocal(b.rows[i].r, l);
    var (date, time) := StampFrom(b, i, l.date, l.time);
    HeadEnds(r, l'.fields, CellPlan(b, i, 0, l'));
    CellIsDecided(b, i, 0, l');
    HeadIsDecided(r, l'.fields, CellPlan(b, i, 0, l'), date, time);
  }

  lemma {:induction false} CellIsDecided(b: Workbook, i: nat, j: nat, l: Local)
    requires i < |b.rows| && j <= |b.rows[i].cells| && EndsInCommit(CellPlan(b, i, j, l))
    requires b.rows[i].r == 1 ==> FirstStamp(b.rows[i].cells, j) == FirstStamp(b.rows[i].cells, 0)
    requires (b.rows[i].r == 1 && FirstStamp(b.rows[i].cells, j) < |b.rows[i].cells|) || StampAhead(b, i + 1)
    ensures DecidedBy(CellPlan(b, i, j, l), StampFrom(b, i, l.date, l.time).0, StampFrom(b, i, l.date, l.time).1)
    decreases |b.rows| - i, 0, 0, |b.rows[i].cells| - j
  {
    hide Stamped, RowPlan;
    CurrentTablesDiffer();
    var row := b.rows[i];
    if j == |row.cells| {
      RowIsDecided(b, i + 1, l);
    } else {
      var a := CellAction(b.sharedStrings, row.r, row.cells[j], j, l);
      if a.Act? && a.brk {
        var date, time := a.local.date, a.local.time;
        if StampAhead(b, i + 1) {
          RowIsDecided(b, i + 1, a.local);
          DecidedCompares(RowPlan(b, i + 1, a.local), StampFrom(b, i + 1, date, time).0, StampFrom(b, i + 1, date, time).1);
        } else {
          RowPlanHasNoCheck(b, i + 1, a.local);
          NoStampAhead(b, i + 1, date, time);
        }
      } else if a.Act? {
        CellIsDecided(b, i, j + 1, a.local);
      }
    }
  }

  // ---------- The second run ----------

  lemma StoredStampIsSame(f: Faults, db: Tables, n: nat, date: string, time: string)
    requires LAST in db && db[LAST] == LastTable(date, time) && !f(n)
    ensures CheckStamp(f, db, n, date, time) == Same
  {
    hide TryAll, RotationStatements;
    assert "date"[0] != "time"[0];
    CellsOfDistinct(["date", "time"], [date, time]);
    assert ["date", "time"][0] in CellsOf(["date", "time"], [date, time]);
    assert ["date", "time"][1] in CellsOf(["date", "time"], [date, time]);
  }

  /** The plan gets to its last comparison, and there the query fails. */
  ghost predicate DecidingQueryFails(f: Faults, db: Tables, n: nat, p: Plan)
    decreases p
  {
    match p
    case Do(s, next) => Execute(f, db, n, s).Some? && DecidingQueryFails(f, Execute(f, db, n, s).value, n + 1, next)
    case Check(date, time, next) =>
      if NoCheck(next) then f(n)
      else
        var c := CheckStamp(f, db, n, date, time);
        c.Proceed? && DecidingQueryFails(f, c.db, c.n, next)
    case _ => false
  }

  lemma {:induction false} CommitsOnlyBlindly(f: Faults, db: Tables, n: nat, p: Plan, date: string, time: string)
    requires DecidedBy(p, date, time) && LAST in db && db[LAST] == LastTable(date, time)
    requires ExecutePlan(f, db, n, p).Committed?
    ensures DecidingQueryFails(f, db, n, p)
    decreases p
  {
    hide Apply, CheckStamp, LastTable;
    match p
    case Do(s, next) =>
      StatementKeepsLast(db, s);
      CommitsOnlyBlindly(f, Execute(f, db, n, s).value, n + 1, next, date, time);
    case Check(d, t, next) =>
      if NoCheck(next) {
        if !f(n) { StoredStampIsSame(f, db, n, date, time); }
      } else {
        CheckKeepsLast(f, db, n, d, t);
        var c := CheckStamp(f, db, n, d, t);
        CommitsOnlyBlindly(f, c.db, c.n, next, date, time);
      }
  }

  /** A workbook with a date cell, once committed, is committed again right after only if the query of the last
      comparison fails in the second Update; otherwise the tables stay as they are. Both Updates may meet any
      faults. */
  lemma {:induction false} UpdateIsIdempotent(f: Faults, db: Tables, n: nat, b: Workbook, g: Faults, m: nat)
    requires UpdateOutcome(f, db, n, Some(b)).Committed? && StampAhead(b, 0)
    ensures var db' := UpdateOutcome(f, db, n, Some(b)).db;
            var second := UpdateOutcome(g, db', m, Some(b));
            !DecidingQueryFails(g, db', m + 1, PlanOf(b)) ==> !second.Committed? && After(second, db') == db'
  {
    hide ExecutePlan, RowPlan, LastTable, DecidedBy, DecidingQueryFails;
    UpdateIsAtomic(f, db, n, Some(b));
    CommittedEnds(f, db, n + 1, PlanOf(b));
    RowIsDecided(b, 0, START);
    var db' := UpdateOutcome(f, db, n, Some(b)).db;
    if UpdateOutcome(g, db', m, Some(b)).Committed? {
      CommitsOnlyBlindly(g, db', m + 1, PlanOf(b), StampOf(b).0, StampOf(b).1);
    }
  }

  // ---------- A second commit ----------

  lemma {:induction false} FreeFromHere(f: Faults, db: Tables, n: nat, p: Plan)
    requires NoCheck(p) && forall k: nat :: n <= k ==> !f(k)
    ensures ExecutePlan(f, db, n, p) == Execute0(db, p)
    decreases p
  {
    hide Apply;
    if p.Do? && Apply(db, p.statement).Some? { FreeFromHere(f, Apply(db, p.statement).value, n + 1, p.next); }
  }

  /** When nothing but the comparing query fails, a well-formed workbook is committed a second time. */
  lemma FailedQueryCommitsAgain(f: Faults, db: Tables, n: nat, b: Workbook, g: Faults, m: nat)
    requires WellDated(b) && UpdateOutcome(f, db, n, Some(b)).Committed?
    requires !g(m) && g(m + 1) && forall k: nat :: m + 2 <= k ==> !g(k)
    ensures var db' := UpdateOutcome(f, db, n, Some(b)).db; UpdateOutcome(g, db', m, Some(b)) == Committed(db')
  {
    CommittedUpdate(f, b, db, n);
    hide WellFormed, Stored, UpdateOutcome, FirstRow;
    var db' := UpdateOutcome(f, db, n, Some(b)).db;
    StoredAgain(FirstRow(f, db, n + 1, b).db, b);
    BlindCommit(db', b, g, m);
  }

  lemma BlindCommit(db: Tables, b: Workbook, g: Faults, m: nat)
    requires WellDated(b) && !g(m) && g(m + 1) && forall k: nat :: m + 2 <= k ==> !g(k)
    ensures UpdateOutcome(g, db, m, Some(b)) == Committed(Stored(db, b))
  {
    hide WellFormed, RowPlan, Execute0, Stored, ExecutePlan, PlanOf, StampOf, CheckStamp, AfterRow1, HasStamp;
    PlanOfWellFormed(g, db, m + 1, b);
    FailedQueryProceeds(g, db, m + 1, StampOf(b).0, StampOf(b).1);
    FreeFromHere(g, db, m + 2, RowPlan(b, 1, AfterRow1(b)));
    LaterRowsStoreAll(b, db);
  }

  lemma StoredAgain(db: Tables, b: Workbook)
    requires WellFormed(b)
    ensures Stored(Stored(db, b), b) == Stored(db, b)
    ensures var s := Stored(db, b); LAST in s && s[LAST] == LastTable(StampOf(b).0, StampOf(b).1)
  {
    hide WellFormed, TitlesTable, StockTable, LastTable, StampOf;
    CurrentTablesDiffer();
  }

  /** Even then the tables stay as they are: whatever faults the two Updates meet, storing a well-formed
      workbook again right after a commit never changes anything. */
  lemma SecondUpdateChangesNothing(f: Faults, db: Tables, n: nat, b: Workbook, g: Faults, m: nat)
    requires WellFormed(b) && UpdateOutcome(f, db, n, Some(b)).Committed?
    ensures var db' := UpdateOutcome(f, db, n, Some(b)).db; After(UpdateOutcome(g, db', m, Some(b)), db') == db'
  {
    CommittedUpdate(f, b, db, n);
    hide UpdateOutcome, WellFormed, Stored, CheckStamp, LastTable, StampOf;
    var db' := UpdateOutcome(f, db, n, Some(b)).db;
    StoredAgain(FirstRow(f, db, n + 1, b).db, b);
    if UpdateOutcome(g, db', m, Some(b)).Committed? {
      CommittedUpdate(g, b, db', m);
      if g(m + 1) {
        FailedQueryProceeds(g, db', m + 1, StampOf(b).0, StampOf(b).1);
      } else {
        StoredStampIsSame(g, db', m + 1, StampOf(b).0, StampOf(b).1);
      }
    }
  }

  // ---------- When the second Update recognises the snapshot ----------

  /** The plan gets to a comparison with `date` and `time` whose query succeeds. */
  ghost predicate ReachesStamp(f: Faults, db: Tables, n: nat, p: Plan, date: string, time: string)
    decreases p
  {
    match p
    case Do(s, next) => Execute(f, db, n, s).Some? && ReachesStamp(f, Execute(f, db, n, s).value, n + 1, next, date, time)
    case Check(d, t, next) =>
      if d == date && t == time && !f(n) then true
      else
        var c := CheckStamp(f, db, n, d, t);
        c.Proceed? && ReachesStamp(f, c.db, c.n, next, date, time)
    case _ => false
  }

  lemma {:induction false} NoCheckNeverSkips(f: Faults, db: Tables, n: nat, p: Plan, date: string, time: string)
    requires NoCheck(p)
    ensures ExecutePlan(f, db, n, p) != Skipped && !ReachesStamp(f, db, n, p, date, time)
    decreases p
  {
    hide Apply;
    if p.Do? && Execute(f, db, n, p.statement).Some? {
      NoCheckNeverSkips(f, Execute(f, db, n, p.statement).value, n + 1, p.next, date, time);
    }
  }

  lemma {:induction false} OtherStampProceeds(f: Faults, db: Tables, n: nat, d: string, t: string, date: string, time: string)
    requires LAST in db && db[LAST] == LastTable(date, time)
    ensures CheckStamp(f, db, n, d, t) == Same <==> d == date && t == time && !f(n)
  {
    LastCells(date, time);
    hide TryAll, RotationStatements;
    if f(n) { FailedQueryProceeds(f, db, n, d, t); } else { StoredStampIsSame(f, db, n, date, time); }
  }

  lemma {:induction false} SkipsExactlyWhenReached(f: Faults, db: Tables, n: nat, p: Plan, date: string, time: string)
    requires DecidedBy(p, date, time) && LAST in db && db[LAST] == LastTable(date, time)
    ensures ExecutePlan(f, db, n, p) == Skipped <==> ReachesStamp(f, db, n, p, date, time)
    decreases p
  {
    hide Apply, CheckStamp, LastTable;
    match p
    case Do(s, next) =>
      if Execute(f, db, n, s).Some? {
        StatementKeepsLast(db, s);
        SkipsExactlyWhenReached(f, Execute(f, db, n, s).value, n + 1, next, date, time);
      }
    case Check(d, t, next) =>
      OtherStampProceeds(f, db, n, d, t, date, time);
      var c := CheckStamp(f, db, n, d, t);
      if c.Proceed? {
        if NoCheck(next) {
          NoCheckNeverSkips(f, c.db, c.n, next, date, time);
        } else {
          CheckKeepsLast(f, db, n, d, t);
          SkipsExactlyWhenReached(f, c.db, c.n, next, date, time);
        }
      }
  }

  lemma FailedQueryProceeds(f: Faults, db: Tables, n: nat, date: string, time: string)
    requires f(n)
    ensures CheckStamp(f, db, n, date, time) == Proceed(db, n + 1)
  {
  }

  /** The exact condition, under any faults and for any workbook with a date cell: the second Update recognises
      the snapshot if and only if the transaction begins and the plan gets to a comparison with the stored date
      and time whose query succeeds. */
  lemma {:induction false} SkippedExactlyWhenReached(f: Faults, db: Tables, n: nat, b: Workbook, g: Faults, m: nat)
    requires UpdateOutcome(f, db, n, Some(b)).Committed? && StampAhead(b, 0)
    ensures var db' := UpdateOutcome(f, db, n, Some(b)).db;
            UpdateOutcome(g, db', m, Some(b)) == Skipped <==>
              !g(m) && ReachesStamp(g, db', m + 1, PlanOf(b), StampOf(b).0, StampOf(b).1)
  {
    hide ExecutePlan, RowPlan, LastTable, DecidedBy, ReachesStamp;
    UpdateIsAtomic(f, db, n, Some(b));
    CommittedEnds(f, db, n + 1, PlanOf(b));
    RowIsDecided(b, 0, START);
    SkipsExactlyWhenReached(g, UpdateOutcome(f, db, n, Some(b)).db, m + 1, PlanOf(b), StampOf(b).0, StampOf(b).1);
  }

  /** When the date row comes first and is the only one, the second Update recognises the snapshot if and only
      if the transaction begins and its first query succeeds. */
  lemma SecondUpdateIsSkipped(f: Faults, db: Tables, n: nat, b: Workbook, g: Faults, m: nat)
    requires UpdateOutcome(f, db, n, Some(b)).Committed?
    requires b.rows != [] && HasStamp(b.rows[0]) && !StampAhead(b, 1)
    ensures UpdateOutcome(g, UpdateOutcome(f, db, n, Some(b)).db, m, Some(b)) == Skipped <==> !g(m) && !g(m + 1)
  {
    SkippedExactlyWhenReached(f, db, n, b, g, m);
    CommittedEnds(f, db, n + 1, PlanOf(b));
    assert StampAhead(b, 0);
    RowIsDecided(b, 0, START);
    PlanOfFirstRow(b);
    var db' := UpdateOutcome(f, db, n, Some(b)).db;
    var p := PlanOf(b);
    var l := START.(date := p.date, time := p.time);
    RowPlanHasNoCheck(b, 1, l);
    hide RowPlan, Stamped, UpdateOutcome, PlanOf, StampOf, CheckStamp;
    var c := CheckStamp(g, db', m + 1, p.date, p.time);
    if c.Proceed? { NoCheckNeverSkips(g, c.db, c.n, p.next, p.date, p.time); }
  }

  /** The exact condition for a well-formed workbook and any tables and faults: it is recognised as stored if and
      only if it has a date cell, the transaction begins, the query succeeds, and LAST_UPDATE holds its stamp. */
  lemma RecognisedExactly(f: Faults, db: Tables, n: nat, b: Workbook)
    requires WellFormed(b)
    ensures b.rows != []
    ensures UpdateOutcome(f, db, n, Some(b)) == Skipped <==>
              !f(n) && HasStamp(b.rows[0]) && !f(n + 1) &&
              var rows := Select(db, LAST, ["date", "time"]);
              rows.Some? && rows.value != [] &&
              Fetch(rows.value[0], "date", "") == StampOf(b).0 && Fetch(rows.value[0], "time", "") == StampOf(b).1
  {
    PlanOfWellFormed(f, db, n + 1, b);
    hide WellFormed, RowPlan, ExecutePlan, PlanOf, StampOf, TryAll, HasStamp;
    var c := FirstRow(f, db, n + 1, b);
    if c.Proceed? { NoCheckNeverSkips(f, c.db, c.n, RowPlan(b, 1, AfterRow1(b)), "", ""); }
  }
}
