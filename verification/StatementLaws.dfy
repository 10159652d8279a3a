/** What the statements promise whoever sends them: what is kept, what is ignored, and what is refused. */
module StatementLaws {
  import opened Text
  import opened Database

  /** Creating a table that exists keeps it with all its rows. */
  lemma CreateKeepsExisting(db: Tables, t: string, fields: seq<Field>)
    requires t in db
    ensures Apply(db, CreateTable(t, fields)) == Some(db)
  {
  }

  /** Two columns of one name, or a key that is no column, make CREATE TABLE of a new table an error. */
  lemma BadFieldsAreRefused(db: Tables, t: string, fields: seq<Field>, i: nat, j: nat)
    requires t !in db && i < j < |fields| && fields[i].name == fields[j].name && !fields[j].PrimaryKey?
    ensures Apply(db, CreateTable(t, fields)) == None
  {
    var columns := Columns(fields);
    if j < |columns| {
      assert FieldNames(columns)[i] == FieldNames(columns)[j];
    }
  }

  lemma NoFieldsAreRefused(db: Tables, t: string)
    requires t !in db
    ensures Apply(db, CreateTable(t, [])) == None
  {
  }

  /** A column that cannot be written bare in an UPDATE, or is not there, makes it an error. */
  lemma OddColumnFails(db: Tables, t: string, where: string, key: string, field: string, value: string)
    requires !IsCellRef(field) || (t in db && field !in db[t].columns)
    ensures Apply(db, Update(t, where, key, field, value)) == None
  {
    hide IsCellRef;
  }

  /** So do a missing table, an unknown column, and too few values in an INSERT. */
  lemma OddInsertFails(db: Tables, t: string, names: seq<string>, values: seq<string>)
    requires t !in db || |names| != |values| || exists n <- names :: n !in db[t].columns
    ensures Apply(db, Insert(t, names, values)) == None
  {
  }

  lemma {:induction false} InsertRowKeeps(rows: seq<Row>, row: Row)
    requires Sorted(rows)
    ensures forall r <- rows :: r in InsertRow(rows, row)
    ensures (exists r <- rows :: r.id == row.id) ==> InsertRow(rows, row) == rows
    ensures (forall r <- rows :: r.id != row.id) ==> row in InsertRow(rows, row) && |InsertRow(rows, row)| == |rows| + 1
  {
    if rows == [] || row.id < rows[0].id {
      InsertAtFront(rows, row);
    } else if row.id == rows[0].id {
      assert rows[0] in rows;
    } else {
      var first, rest := rows[0], rows[1..];
      InsertRowKeeps(rest, row);
      var rest' := InsertRow(rest, row);
      assert InsertRow(rows, row) == [first] + rest' && rows == [first] + rest;
      hide InsertRow, Sorted;
      assert forall r :: r in [first] + rest' <==> r == first || r in rest';
      assert forall r :: r in [first] + rest <==> r == first || r in rest;
    }
  }

  lemma {:induction false} InsertAtFront(rows: seq<Row>, row: Row)
    requires Sorted(rows) && (rows == [] || row.id < rows[0].id)
    ensures InsertRow(rows, row) == [row] + rows
    ensures forall r <- rows :: r.id != row.id && r in InsertRow(rows, row)
    ensures row in InsertRow(rows, row)
  {
    forall r | r in rows
      ensures r.id != row.id
    {
      var i :| 0 <= i < |rows| && rows[i] == r;
      assert rows[0].id <= rows[i].id;
    }
  }

  /** INSERT OR IGNORE never changes or removes a row: a row whose key is there is left alone, any other is added. */
  lemma InsertNeverReplaces(t: Table, names: seq<string>, values: seq<string>)
    requires Sorted(t.rows) && Inserted(t, names, values).Some?
    ensures var t' := Inserted(t, names, values).value;
            t'.columns == t.columns && t'.key == t.key && (forall r <- t.rows :: r in t'.rows) &&
            (t' == t || |t'.rows| == |t.rows| + 1)
  {
    hide CellsOf, StrToInt, IntToStr, InsertRow;
    var t' := Inserted(t, names, values).value;
    if t' != t {
      var row :| t'.rows == InsertRow(t.rows, row);
      InsertRowKeeps(t.rows, row);
    }
  }

  /** In a table keyed by a text a second row with the same key is ignored. */
  lemma SecondKeyIsIgnored(t: Table, names: seq<string>, values: seq<string>, r: Row)
    requires t.key == TextKey && t.columns != [] && r in t.rows && Inserted(t, names, values).Some?
    requires var cells := CellsOf(names, values);
             t.columns[0] in cells && t.columns[0] in r.cells && r.cells[t.columns[0]] == cells[t.columns[0]]
    ensures Inserted(t, names, values) == Some(t)
  {
    hide CellsOf;
  }

  /** In a table keyed by a row number, so is a second row with the same number. */
  lemma SecondNumberIsIgnored(t: Table, key: string, id: int, r: Row)
    requires t.key == RowIdKey && t.columns != [] && t.columns[0] == key && Sorted(t.rows) && r in t.rows && r.id == id
    ensures Inserted(t, [key], [IntToStr(id)]) == Some(t)
  {
    IntRoundTrip(id);
    var cells := CellsOf([key], [IntToStr(id)]);
    assert key == [key][0] && key !in [key][..0];
    assert key in cells && cells[key] == IntToStr(id);
    hide CellsOf, IntToStr, StrToInt;
    InsertRowKeeps(t.rows, Row(id, cells[key := IntToStr(id)]));
  }
}
