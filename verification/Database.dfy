/** CoreLib::DB over SQLite, as far as its statements change tables. A database value maps table names to
    tables; rows are kept in rowid order, as the B-tree of a table keeps them. */
module Database {
  import opened Text

  // ---------- Schemas ----------

  /** One item of a CREATE TABLE field list. */
  datatype Field = IntegerColumn(name: string) | TextColumn(name: string) | PrimaryKey(name: string)

  datatype KeyKind = NoKey | TextKey | RowIdKey

  function FieldNames(fields: seq<Field>): (names: seq<string>)
    ensures |names| == |fields|
    ensures forall i :: 0 <= i < |fields| ==> names[i] == fields[i].name
  {
    seq(|fields|, i requires 0 <= i < |fields| => fields[i].name)
  }

  /** The columns of a field list: everything before a trailing PRIMARY KEY. */
  function Columns(fields: seq<Field>): seq<Field> {
    if fields != [] && fields[|fields| - 1].PrimaryKey? then fields[..|fields| - 1] else fields
  }

  predicate Distinct<T(==)>(s: seq<T>) {
    forall i, j :: 0 <= i < j < |s| ==> s[i] != s[j]
  }

  /** SQLite accepts the list: columns with distinct names, at most one key, last and on the first column. */
  predicate ValidFields(fields: seq<Field>) {
    var columns := Columns(fields);
    columns != [] && (forall c <- columns :: !c.PrimaryKey?) && Distinct(FieldNames(columns)) &&
    (|columns| < |fields| ==> fields[|fields| - 1].name == columns[0].name)
  }

  /** `INTEGER ... PRIMARY KEY` on one column makes that column the rowid. */
  function KeyOf(fields: seq<Field>): KeyKind {
    var columns := Columns(fields);
    if |columns| == |fields| then NoKey
    else if columns == [] || columns[0].TextColumn? then TextKey
    else RowIdKey
  }

  // ---------- Tables ----------

  /** A row's non-NULL values by column. */
  datatype Row = Row(id: int, cells: map<string, string>)

  datatype Table = Table(columns: seq<string>, key: KeyKind, rows: seq<Row>)

  type Tables = map<string, Table>

  predicate Sorted(rows: seq<Row>) {
    forall i, j :: 0 <= i < j < |rows| ==> rows[i].id < rows[j].id
  }

  /** Adds a row at its place in rowid order; an existing rowid is left alone. */
  function InsertRow(rows: seq<Row>, row: Row): seq<Row> {
    if rows == [] || row.id < rows[0].id then [row] + rows
    else if row.id == rows[0].id then rows
    else [rows[0]] + InsertRow(rows[1..], row)
  }

  lemma {:induction false} InsertMembers(rows: seq<Row>, row: Row)
    ensures forall r <- InsertRow(rows, row) :: r in rows || r == row
  {
    if rows != [] && row.id > rows[0].id {
      InsertMembers(rows[1..], row);
      assert forall r <- InsertRow(rows, row) :: r == rows[0] || r in InsertRow(rows[1..], row);
    }
  }

  lemma {:induction false} InsertKeepsSorted(rows: seq<Row>, row: Row)
    requires Sorted(rows)
    ensures Sorted(InsertRow(rows, row))
  {
    if rows != [] && row.id > rows[0].id {
      InsertKeepsSorted(rows[1..], row);
      InsertMembers(rows[1..], row);
      var rest := InsertRow(rows[1..], row);
      forall j | 0 <= j < |rest|
        ensures rows[0].id < rest[j].id
      {
        assert rest[j] in rest;
      }
    }
  }

  lemma {:induction false} InsertAtEnd(rows: seq<Row>, row: Row)
    requires forall r <- rows :: r.id < row.id
    ensures InsertRow(rows, row) == rows + [row]
  {
    if rows != [] {
      assert rows[0] in rows;
      InsertAtEnd(rows[1..], row);
      assert [rows[0]] + (rows[1..] + [row]) == rows + [row];
    }
  }

  function NextRowId(rows: seq<Row>): int {
    if rows == [] then 1 else rows[|rows| - 1].id + 1
  }

  function CellsOf(fields: seq<string>, values: seq<string>): map<string, string>
    requires |fields| == |values|
  {
    map i | 0 <= i < |fields| && fields[i] !in fields[..i] :: fields[i] := values[i]
  }

  /** UPDATE ... SET field = value WHERE where = key. */
  function UpdateRows(rows: seq<Row>, where: string, key: string, field: string, value: string): seq<Row> {
    if rows == [] then []
    else
      var r := rows[0];
      [if where in r.cells && r.cells[where] == key then Row(r.id, r.cells[field := value]) else r]
      + UpdateRows(rows[1..], where, key, field, value)
  }

  predicate Letters(s: string) {
    forall i :: 0 <= i < |s| ==> 'A' <= s[i] <= 'Z'
  }

  predicate Numerals(s: string) {
    forall i :: 0 <= i < |s| ==> IsDigit(s[i])
  }

  /** A spreadsheet reference such as A2 or BC14, the only kind of name `SET name=?` is spelled with bare. */
  predicate IsCellRef(s: string) {
    exists n :: 0 < n < |s| && Letters(s[..n]) && Numerals(s[n..])
  }

  // ---------- Statements ----------

  datatype Statement =
    | CreateTable(table: string, fields: seq<Field>)
    | DropTable(table: string)
    | RenameTable(table: string, newTable: string)
    | Insert(table: string, names: seq<string>, values: seq<string>)
    | Update(table: string, where: string, key: string, field: string, value: string)

  /** The table after INSERT OR IGNORE; None when the statement is an error. */
  function Inserted(t: Table, names: seq<string>, values: seq<string>): Option<Table> {
    if |names| != |values| || (exists n <- names :: n !in t.columns) || t.columns == [] then None
    else
      var cells := CellsOf(names, values);
      var key := t.columns[0];
      match t.key
      case NoKey => Some(t.(rows := InsertRow(t.rows, Row(NextRowId(t.rows), cells))))
      case TextKey =>
        if key in cells && (exists r <- t.rows :: key in r.cells && r.cells[key] == cells[key]) then Some(t)
        else Some(t.(rows := InsertRow(t.rows, Row(NextRowId(t.rows), cells))))
      case RowIdKey =>
        if key !in cells then Some(t.(rows := InsertRow(t.rows, Row(NextRowId(t.rows), cells[key := IntToStr(NextRowId(t.rows))]))))
        else
          match StrToInt(cells[key])
          case None => None
          case Some(id) => Some(t.(rows := InsertRow(t.rows, Row(id, cells[key := IntToStr(id)]))))
  }

  /** The effect of one statement; None when SQLite reports an error, and then nothing changes. */
  function Apply(db: Tables, s: Statement): Option<Tables> {
    match s
    case CreateTable(t, fields) =>
      if t in db then Some(db)
      else if ValidFields(fields) then Some(db[t := Table(FieldNames(Columns(fields)), KeyOf(fields), [])])
      else None
    case DropTable(t) => Some(db - {t})
    case RenameTable(t, t') => if t in db && t' !in db then Some((db - {t})[t' := db[t]]) else None
    case Insert(t, names, values) =>
      if t !in db then None
      else
        (match Inserted(db[t], names, values)
         case None => None
         case Some(table) => Some(db[t := table]))
    case Update(t, where, key, field, value) =>
      if t in db && where in db[t].columns && field in db[t].columns && IsCellRef(field)
      then Some(db[t := db[t].(rows := UpdateRows(db[t].rows, where, key, field, value))])
      else None
  }

  lemma InsertApplies(db: Tables, t: string, names: seq<string>, values: seq<string>, after: Table)
    requires t in db && Inserted(db[t], names, values) == Some(after)
    ensures Apply(db, Insert(t, names, values)) == Some(db[t := after])
  {
  }

  /** Every table's rows are in strictly ascending rowid order. */
  ghost predicate WellOrdered(db: Tables) {
    forall t <- db :: Sorted(db[t].rows)
  }

  lemma {:induction false} UpdateKeepsIds(rows: seq<Row>, where: string, key: string, field: string, value: string)
    ensures var rows' := UpdateRows(rows, where, key, field, value);
            |rows'| == |rows| && forall i :: 0 <= i < |rows| ==> rows'[i].id == rows[i].id
  {
    if rows != [] { UpdateKeepsIds(rows[1..], where, key, field, value); }
  }

  lemma ApplyKeepsOrder(db: Tables, s: Statement)
    requires WellOrdered(db) && Apply(db, s).Some?
    ensures WellOrdered(Apply(db, s).value)
  {
    hide IsCellRef, StrToInt, ValidFields;
    if s.Insert? {
      InsertedKeepsOrder(db[s.table], s.names, s.values);
    } else if s.Update? {
      UpdateKeepsIds(db[s.table].rows, s.where, s.key, s.field, s.value);
    }
  }

  lemma InsertedKeepsOrder(t: Table, names: seq<string>, values: seq<string>)
    requires Sorted(t.rows) && Inserted(t, names, values).Some?
    ensures Sorted(Inserted(t, names, values).value.rows)
  {
    hide StrToInt, IntToStr, CellsOf;
    var rows := Inserted(t, names, values).value.rows;
    if rows != t.rows {
      var row :| rows == InsertRow(t.rows, row);
      InsertKeepsSorted(t.rows, row);
    }
  }

  /** Tables other than those a statement names are untouched. */
  lemma ApplyFrame(db: Tables, s: Statement, t: string)
    requires Apply(db, s).Some?
    requires t != s.table && (s.RenameTable? ==> t != s.newTable)
    ensures var db' := Apply(db, s).value; (t in db' <==> t in db) && (t in db ==> db'[t] == db[t])
  {
  }

  // ---------- Queries ----------

  /** The rows a SELECT of the named columns ranges over, in rowid order; None when it is an error. */
  function Select(db: Tables, table: string, names: seq<string>): Option<seq<Row>> {
    if table in db && (forall n <- names :: n in db[table].columns) then Some(db[table].rows) else None
  }

  /** A column fetched into a std::string that holds `current`: NULL leaves the string as it is. */
  function Fetch(row: Row, column: string, current: string): string {
    if column in row.cells then row.cells[column] else current
  }

  // ---------- The database session ----------

  /** `faulty` marks, by a running count of statements, those that fail for reasons outside the model. */
  type Faults = nat -> bool

  function NoFaults(): Faults {
    n => false
  }

  /** Statement number `n` under faults. */
  function Execute(f: Faults, db: Tables, n: nat, s: Statement): Option<Tables> {
    if f(n) then None else Apply(db, s)
  }

  class DB {
    const faults: Faults
    var tables: Tables
    var saved: Option<Tables>  // the tables at the start of the open transaction
    var clock: nat

    constructor (faults: Faults)
      ensures this.faults == faults && tables == map[] && saved == None && clock == 0
    {
      this.faults := faults;
      tables, saved, clock := map[], None, 0;
    }

    /** The tables as other connections see them. */
    ghost function Committed(): Tables
      reads this
    {
      if saved.Some? then saved.value else tables
    }

    method Begin() returns (ok: bool)
      requires saved == None
      modifies this
      ensures ok == !faults(old(clock)) && clock == old(clock) + 1
      ensures tables == old(tables) && saved == if ok then Some(tables) else None
    {
      ok := !faults(clock);
      clock := clock + 1;
      if ok { saved := Some(tables); }
    }

    method Commit() returns (ok: bool)
      requires saved.Some?
      modifies this
      ensures ok == !faults(old(clock)) && clock == old(clock) + 1
      ensures tables == old(tables) && saved == if ok then None else old(saved)
    {
      ok := !faults(clock);
      clock := clock + 1;
      if ok { saved := None; }
    }

    method Rollback()
      requires saved.Some?
      modifies this
      ensures tables == old(saved).value && saved == None && clock == old(clock)
    {
      tables, saved := saved.value, None;
    }

    /** Any of the five statements; `ok` is false where the C++ method throws. */
    method Exec(s: Statement) returns (ok: bool)
      modifies this
      ensures clock == old(clock) + 1 && saved == old(saved)
      ensures ok == Execute(faults, old(tables), old(clock), s).Some?
      ensures tables == if ok then Execute(faults, old(tables), old(clock), s).value else old(tables)
    {
      var result := if faults(clock) then None else Apply(tables, s);
      clock := clock + 1;
      ok := result.Some?;
      if ok { tables := result.value; }
    }

    /** SELECT of the named columns. */
    method Query(table: string, names: seq<string>) returns (rows: Option<seq<Row>>)
      modifies this`clock
      ensures clock == old(clock) + 1
      ensures rows == if faults(old(clock)) then None else Select(tables, table, names)
    {
      rows := if faults(clock) then None else Select(tables, table, names);
      clock := clock + 1;
    }
  }
}
