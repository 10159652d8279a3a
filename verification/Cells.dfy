/** Which cells play no part in an Update, which end it, and what a workbook that can be committed looks like. */
module Cells {
  import opened Text
  import opened Database
  import opened DbTables
  import opened Stamp
  import opened Ingest
  import opened Atomicity
  import opened Idempotence
  import opened Fidelity

  // ---------- Idle cells ----------

  /** In row 1 all but a shared string in A1, in row 2 all that hold no shared string. */
  predicate IsIdle(r: int, c: Cell) {
    (r == 1 && !(c.ref == "A1" && c.kind == "s")) || (r == 2 && c.kind != "s")
  }

  /** The workbook without cell `j` of row `i`. */
  function Without(b: Workbook, i: nat, j: nat): Workbook
    requires i < |b.rows| && j < |b.rows[i].cells|
  {
    var row := b.rows[i];
    b.(rows := b.rows[i := row.(cells := row.cells[..j] + row.cells[j + 1..])])
  }

  /** The rows behind the one that lost a cell have the same plan. */
  lemma {:induction false} LaterRowsAreSame(b: Workbook, i: nat, j: nat, k: nat, l: Local)
    requires i < |b.rows| && j < |b.rows[i].cells| && i < k <= |b.rows|
    ensures RowPlan(Without(b, i, j), k, l) == RowPlan(b, k, l)
    decreases |b.rows| - k, 0, 1
  {
    hide CellAction, HeadPlan, FinalPlan;
    if k < |b.rows| {
      LaterCellsAreSame(b, i, j, k, 0, HeadLocal(b.rows[k].r, l));
    }
  }

  lemma {:induction false} LaterCellsAreSame(b: Workbook, i: nat, j: nat, k: nat, m: nat, l: Local)
    requires i < |b.rows| && j < |b.rows[i].cells| && i < k < |b.rows| && m <= |b.rows[k].cells|
    ensures CellPlan(Without(b, i, j), k, m, l) == CellPlan(b, k, m, l)
    decreases |b.rows| - k, 0, 0, |b.rows[k].cells| - m
  {
    hide CellAction;
    if m == |b.rows[k].cells| {
      LaterRowsAreSame(b, i, j, k + 1, l);
    } else {
      match CellAction(b.sharedStrings, b.rows[k].r, b.rows[k].cells[m], m, l)
      case Abort =>
      case Act(_, l', brk) =>
        if brk { LaterRowsAreSame(b, i, j, k + 1, l'); } else { LaterCellsAreSame(b, i, j, k, m + 1, l'); }
    }
  }

  /** Behind the lost cell the cells of its row have moved by one, which does not matter in rows 1 and 2. */
  lemma {:induction false} MovedCellsAreSame(b: Workbook, i: nat, j: nat, m: nat, l: Local)
    requires i < |b.rows| && j < m <= |b.rows[i].cells| && b.rows[i].r in {1, 2}
    ensures CellPlan(Without(b, i, j), i, m - 1, l) == CellPlan(b, i, m, l)
    decreases |b.rows[i].cells| - m
  {
    var row, row' := b.rows[i], Without(b, i, j).rows[i];
    assert |row'.cells| == |row.cells| - 1;
    if m == |row.cells| {
      LaterRowsAreSame(b, i, j, i + 1, l);
    } else {
      assert row'.cells[m - 1] == row.cells[m];
      var a := CellAction(b.sharedStrings, row.r, row.cells[m], m, l);
      assert CellAction(b.sharedStrings, row.r, row.cells[m], m - 1, l) == a;
      hide CellAction;
      if a.Act? {
        if a.brk { LaterRowsAreSame(b, i, j, i + 1, a.local); } else { MovedCellsAreSame(b, i, j, m + 1, a.local); }
      }
    }
  }

  lemma {:induction false} CellsUpToAreSame(b: Workbook, i: nat, j: nat, m: nat, l: Local)
    requires i < |b.rows| && m <= j < |b.rows[i].cells| && IsIdle(b.rows[i].r, b.rows[i].cells[j])
    ensures CellPlan(Without(b, i, j), i, m, l) == CellPlan(b, i, m, l)
    decreases j - m
  {
    var row, row' := b.rows[i], Without(b, i, j).rows[i];
    if m == j {
      assert CellAction(b.sharedStrings, row.r, row.cells[j], j, l) == Act(Nothing, l, false);
      hide CellAction;
      MovedCellsAreSame(b, i, j, j + 1, l);
    } else {
      assert row'.cells[m] == row.cells[m];
      hide CellAction;
      var a := CellAction(b.sharedStrings, row.r, row.cells[m], m, l);
      if a.Act? {
        if a.brk { LaterRowsAreSame(b, i, j, i + 1, a.local); } else { CellsUpToAreSame(b, i, j, m + 1, a.local); }
      }
    }
  }

  lemma {:induction false} RowsUpToAreSame(b: Workbook, i: nat, j: nat, k: nat, l: Local)
    requires k <= i < |b.rows| && j < |b.rows[i].cells| && IsIdle(b.rows[i].r, b.rows[i].cells[j])
    ensures RowPlan(Without(b, i, j), k, l) == RowPlan(b, k, l)
    decreases i - k, 0, 1
  {
    hide CellAction, HeadPlan, IsIdle;
    var l' := HeadLocal(b.rows[k].r, l);
    if k == i { CellsUpToAreSame(b, i, j, 0, l'); } else { EarlierCellsAreSame(b, i, j, k, 0, l'); }
  }

  lemma {:induction false} EarlierCellsAreSame(b: Workbook, i: nat, j: nat, k: nat, m: nat, l: Local)
    requires k < i < |b.rows| && j < |b.rows[i].cells| && IsIdle(b.rows[i].r, b.rows[i].cells[j]) && m <= |b.rows[k].cells|
    ensures CellPlan(Without(b, i, j), k, m, l) == CellPlan(b, k, m, l)
    decreases i - k, 0, 0, |b.rows[k].cells| - m
  {
    hide CellAction, IsIdle;
    if m == |b.rows[k].cells| {
      RowsUpToAreSame(b, i, j, k + 1, l);
    } else {
      match CellAction(b.sharedStrings, b.rows[k].r, b.rows[k].cells[m], m, l)
      case Abort =>
      case Act(_, l', brk) =>
        if brk { RowsUpToAreSame(b, i, j, k + 1, l'); } else { EarlierCellsAreSame(b, i, j, k, m + 1, l'); }
    }
  }

  /** Taking an idle cell out of any workbook changes nothing about any Update of it, under any faults. */
  lemma IdleCellsPlayNoPart(b: Workbook, i: nat, j: nat, f: Faults, db: Tables, n: nat)
    requires i < |b.rows| && j < |b.rows[i].cells| && IsIdle(b.rows[i].r, b.rows[i].cells[j])
    ensures UpdateOutcome(f, db, n, Some(Without(b, i, j))) == UpdateOutcome(f, db, n, Some(b))
  {
    hide RowPlan, ExecutePlan, IsIdle, Without;
    RowsUpToAreSame(b, i, j, 0, START);
  }

  // ---------- Columns of row 3 ----------

  /** Under any faults a committed Update had distinct column names at its row 3: two titles in cells of one
      reference, or a title in a cell called r, end every Update. */
  lemma {:induction false} RowThreeNeedsDistinctTitles(f: Faults, db: Tables, n: nat, b: Workbook, i: nat, l: Local)
    requires i < |b.rows| && b.rows[i].r == 3 && ExecutePlan(f, db, n, RowPlan(b, i, l)).Committed?
    ensures Distinct(FieldNames(l.fields)) && forall k :: 0 <= k < |l.fields| ==> !l.fields[k].PrimaryKey?
  {
    var fields := l.fields + [PrimaryKey("r")];
    var rest := Do(Insert(STOCK, ["r"], [IntToStr(3)]), CellPlan(b, i, 0, HeadLocal(3, l)));
    assert RowPlan(b, i, l) == Do(DropTable(STOCK), Do(CreateTable(STOCK, fields), rest));
    var dropped := Execute(f, db, n, DropTable(STOCK));
    assert dropped.Some? && STOCK !in dropped.value;
    assert Execute(f, dropped.value, n + 1, CreateTable(STOCK, fields)).Some?;
    hide CellPlan, RowPlan;
    assert Columns(fields) == l.fields;
    forall k | 0 <= k < |l.fields|
      ensures !l.fields[k].PrimaryKey?
    {
      assert l.fields[k] in Columns(fields);
    }
  }

  // ---------- A second row 3 ----------

  ghost predicate HasKey(fields: seq<Field>) {
    exists k :: 0 <= k < |fields| && fields[k].PrimaryKey?
  }

  lemma KeyStays(fields: seq<Field>, more: seq<Field>)
    requires HasKey(fields)
    ensures HasKey(fields + more)
  {
    var k :| 0 <= k < |fields| && fields[k].PrimaryKey?;
    assert (fields + more)[k].PrimaryKey?;
  }

  lemma {:induction false} KeyedRowThreeFails(b: Workbook, i: nat, l: Local, db: Tables, db': Tables)
    requires i < |b.rows| && b.rows[i].r == 3 && HasKey(l.fields)
    ensures !Effective(RowPlan(b, i, l), db, db')
  {
    var fields := l.fields + [PrimaryKey("r")];
    var rest := Do(Insert(STOCK, ["r"], [IntToStr(3)]), CellPlan(b, i, 0, HeadLocal(3, l)));
    assert RowPlan(b, i, l) == Do(DropTable(STOCK), Do(CreateTable(STOCK, fields), rest));
    var k :| 0 <= k < |l.fields| && l.fields[k].PrimaryKey?;
    assert Columns(fields) == l.fields && l.fields[k] in Columns(fields);
    assert !ValidFields(fields);
    hide CellPlan, RowPlan, ValidFields;
    assert STOCK !in db - {STOCK};
    assert Apply(db - {STOCK}, CreateTable(STOCK, fields)) == None;
    assert !Effective(Do(CreateTable(STOCK, fields), rest), db - {STOCK}, db');
  }

  lemma {:induction false} RowBeforeRowThreeFails(b: Workbook, i: nat, k: nat, l: Local, db: Tables, db': Tables)
    requires i <= k < |b.rows| && b.rows[k].r == 3 && HasKey(l.fields)
    ensures !Effective(RowPlan(b, i, l), db, db')
    decreases |b.rows| - i, 0, 1
  {
    if b.rows[i].r == 3 {
      KeyedRowThreeFails(b, i, l, db, db');
    } else {
      hide HeadPlan, CellPlan, HasKey, Apply;
      assert i < k;
      if Effective(RowPlan(b, i, l), db, db') {
        var next := CellPlan(b, i, 0, l);
        HeadIsEffective(b.rows[i].r, l.fields, next, db, db');
        var mid :| Effective(next, mid, db');
        CellBeforeRowThreeFails(b, i, k, 0, l, mid, db');
      }
    }
  }

  lemma {:induction false} CellBeforeRowThreeFails(b: Workbook, i: nat, k: nat, j: nat, l: Local, db: Tables, db': Tables)
    requires i < k < |b.rows| && b.rows[k].r == 3 && j <= |b.rows[i].cells| && HasKey(l.fields)
    ensures !Effective(CellPlan(b, i, j, l), db, db')
    decreases |b.rows| - i, 0, 0, |b.rows[i].cells| - j
  {
    hide Stamped, HasKey, Apply, Rotated;
    if j == |b.rows[i].cells| {
      RowBeforeRowThreeFails(b, i + 1, k, l, db, db');
    } else {
      var c := b.rows[i].cells[j];
      match CellAction(b.sharedStrings, b.rows[i].r, c, j, l)
      case Abort =>
      case Act(item, l', brk) =>
        KeyStays(l.fields, [TextColumn(c.ref)]);
        var next := if brk then RowPlan(b, i + 1, l') else CellPlan(b, i, j + 1, l');
        forall mid: Tables
          ensures !Effective(next, mid, db')
        {
          if brk {
            RowBeforeRowThreeFails(b, i + 1, k, l', mid, db');
          } else {
            CellBeforeRowThreeFails(b, i, k, j + 1, l', mid, db');
          }
        }
    }
  }

  /** Once a row 3 was read, another row 3 in the workbook ends every Update: its table would have two keys. */
  lemma {:induction false} SecondRowThreeNeverCommits(f: Faults, db: Tables, n: nat, b: Workbook, i: nat, k: nat, l: Local)
    requires i < k < |b.rows| && b.rows[i].r == 3 && b.rows[k].r == 3
    ensures !ExecutePlan(f, db, n, RowPlan(b, i, l)).Committed?
  {
    var l' := HeadLocal(3, l);
    assert l'.fields[|l.fields|].PrimaryKey? && HasKey(l'.fields);
    hide HasKey, HeadPlan, CellPlan, ExecutePlan, Apply;
    if ExecutePlan(f, db, n, RowPlan(b, i, l)).Committed? {
      var db' := ExecutePlan(f, db, n, RowPlan(b, i, l)).db;
      CommitMeansEffective(f, db, n, RowPlan(b, i, l));
      var next := CellPlan(b, i, 0, l');
      HeadIsEffective(3, l'.fields, next, db, db');
      var mid :| Effective(next, mid, db');
      CellBeforeRowThreeFails(b, i, k, 0, l', mid, db');
    }
  }

  // ---------- Cells that end an Update ----------

  /** How many titles the rows with number 2 give, up to row `i`. */
  function TitlesSoFar(b: Workbook, i: nat): nat
    requires i <= |b.rows|
  {
    if i == 0 then 0
    else
      TitlesSoFar(b, i - 1) +
      if b.rows[i - 1].r == 2 then |StringCells(b.rows[i - 1].cells, |b.rows[i - 1].cells|)| else 0
  }

  /** The value of a cell can be read: a shared string by an index that is there, any other as a number. */
  predicate Readable(b: Workbook, c: Cell) {
    if c.kind == "s" then c.index.Some? && c.index.value < |b.sharedStrings| else c.number.Some?
  }

  /** The date cell and titles are readable; the cells of later rows are readable and stand under a title read
      before. */
  predicate IsSound(b: Workbook, i: nat, j: nat)
    requires i < |b.rows| && j < |b.rows[i].cells|
  {
    var r, c := b.rows[i].r, b.rows[i].cells[j];
    (r == 1 && j == FirstStamp(b.rows[i].cells, 0) ==> Readable(b, c)) &&
    (r == 2 && c.kind == "s" ==> Readable(b, c)) && (r != 1 && r != 2 ==> Readable(b, c) && j < TitlesSoFar(b, i))
  }

  lemma {:induction false} RowsAreSound(b: Workbook, i: nat, l: Local)
    requires i <= |b.rows| && EndsInCommit(RowPlan(b, i, l)) && |l.ids| == TitlesSoFar(b, i)
    ensures forall k, j :: i <= k < |b.rows| && 0 <= j < |b.rows[k].cells| ==> IsSound(b, k, j)
    decreases |b.rows| - i, 0, 1
  {
    if i < |b.rows| {
      var r, l' := b.rows[i].r, HeadLocal(b.rows[i].r, l);
      HeadEnds(r, l'.fields, CellPlan(b, i, 0, l'));
      hide HeadPlan, IsSound, CellPlan, TitlesSoFar, EndsInCommit;
      CellsAreSound(b, i, 0, l');
    }
  }

  /** `l.ids` holds the titles of the earlier rows and of the cells before `j`. */
  lemma {:induction false} CellsAreSound(b: Workbook, i: nat, j: nat, l: Local)
    requires i < |b.rows| && j <= |b.rows[i].cells| && EndsInCommit(CellPlan(b, i, j, l))
    requires b.rows[i].r == 1 ==> FirstStamp(b.rows[i].cells, j) == FirstStamp(b.rows[i].cells, 0)
    requires |l.ids| == TitlesSoFar(b, i) + if b.rows[i].r == 2 then |StringCells(b.rows[i].cells, j)| else 0
    ensures forall m :: j <= m < |b.rows[i].cells| ==> IsSound(b, i, m)
    ensures forall k, m :: i < k < |b.rows| && 0 <= m < |b.rows[k].cells| ==> IsSound(b, k, m)
    decreases |b.rows| - i, 0, 0, |b.rows[i].cells| - j
  {
    hide Stamped;
    var row := b.rows[i];
    if j == |row.cells| {
      RowsAreSound(b, i + 1, l);
    } else {
      var a := CellAction(b.sharedStrings, row.r, row.cells[j], j, l);
      assert a.Act? && IsSound(b, i, j);
      assert StringCells(row.cells, j + 1) ==
             StringCells(row.cells, j) + if row.cells[j].kind == "s" then [row.cells[j]] else [];
      if a.brk {
        assert row.r == 1;
        RowsAreSound(b, i + 1, a.local);
        forall m | j <= m < |row.cells|
          ensures IsSound(b, i, m)
        {
        }
      } else {
        hide IsSound;
        CellsAreSound(b, i, j + 1, a.local);
      }
    }
  }

  /** Under any faults a committed workbook was sound: an unreadable title, an unreadable value or a value
      without a title ends every Update of its workbook, and nothing of it is stored. */
  lemma CommittedIsSound(f: Faults, db: Tables, n: nat, b: Workbook)
    requires UpdateOutcome(f, db, n, Some(b)).Committed?
    ensures forall i, j :: 0 <= i < |b.rows| && 0 <= j < |b.rows[i].cells| ==> IsSound(b, i, j)
  {
    CommittedEnds(f, db, n + 1, PlanOf(b));
    hide IsSound, EndsInCommit, RowPlan, ExecutePlan;
    RowsAreSound(b, 0, START);
  }
}
