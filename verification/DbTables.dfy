/** Table names and field lists (class DBTables). */
module DbTables {
  import opened Text
  import opened Database
  import opened Stamp

  const TABLES: map<string, string> :=
    map["LAST_UPDATE" := "lastupdate", "DATA_TITLES" := "datatitles", "STOCK_DATA" := "stockdata", "ARCHIVE" := "archive"]

  const LAST_UPDATE_FIELDS := [TextColumn("date"), TextColumn("time")]
  const DATA_TITLES_FIELDS := [TextColumn("id"), TextColumn("title"), PrimaryKey("id")]
  const ARCHIVE_FIELDS := [TextColumn("date"), TextColumn("time"), TextColumn("datatitlestbl"),
                           TextColumn("stockdatatbl"), PrimaryKey("date")]

  function TableName(id: string): string {
    if id in TABLES then TABLES[id] else "{?}"
  }

  const LAST := TableName("LAST_UPDATE")
  const TITLES := TableName("DATA_TITLES")
  const STOCK := TableName("STOCK_DATA")
  const ARCHIVE := TableName("ARCHIVE")

  const ARCHIVE_PREFIX := "archive__"

  function TableFromDate(id: string, date: string): string {
    ARCHIVE_PREFIX + TableName(id) + "__" + Replace(date, '/', '_')
  }

  const INITIAL_FIELDS: map<string, seq<Field>> :=
    map["LAST_UPDATE" := LAST_UPDATE_FIELDS, "DATA_TITLES" := DATA_TITLES_FIELDS, "ARCHIVE" := ARCHIVE_FIELDS]

  class DBTables {
    var FieldsHash: map<string, seq<Field>>

    constructor ()
      ensures FieldsHash == INITIAL_FIELDS
    {
      FieldsHash := INITIAL_FIELDS;
    }

    /** An unknown id is logged and yields a text no statement accepts. */
    function Fields(id: string): seq<Field>
      reads this
    {
      if id in FieldsHash then FieldsHash[id] else []
    }

    method SetFields(tableId: string, fields: seq<Field>)
      modifies this
      ensures FieldsHash == old(FieldsHash)[tableId := fields]
    {
      FieldsHash := FieldsHash[tableId := fields];
    }
  }

  // ---------- Dated names ----------

  /** The date column only ever holds such a text. */
  predicate IsStampDate(date: string) {
    date == "" || IsNormal(DateStamp, date)
  }

  lemma SlashesOfADate(d: string)
    requires IsNormal(DateStamp, d)
    ensures |d| == 10 && forall i :: 0 <= i < 10 ==> (d[i] == '/' <==> i == 4 || i == 7) && d[i] != '_'
  {
  }

  lemma {:induction false} ReplaceIsInjective(a: string, b: string)
    requires IsStampDate(a) && IsStampDate(b)
    requires Replace(a, '/', '_') == Replace(b, '/', '_')
    ensures a == b
  {
    hide IsNormal;
    if a != "" && b != "" {
      SlashesOfADate(a);
      SlashesOfADate(b);
      var r := Replace(a, '/', '_');
      assert forall i :: 0 <= i < 10 ==> r[i] == if a[i] == '/' then '_' else a[i];
      assert forall i :: 0 <= i < 10 ==> r[i] == if b[i] == '/' then '_' else b[i];
    } else if a != "" {
      SlashesOfADate(a);
    } else if b != "" {
      SlashesOfADate(b);
    }
  }

  /** A dated table name determines both the table it was made from and the date. */
  lemma TableFromDateInjective(titles: bool, date: string, titles': bool, date': string)
    requires IsStampDate(date) && IsStampDate(date')
    requires TableFromDate(if titles then "DATA_TITLES" else "STOCK_DATA", date) ==
             TableFromDate(if titles' then "DATA_TITLES" else "STOCK_DATA", date')
    ensures titles == titles' && date == date'
  {
    TitlesAndStockDiffer(date, date');
    TitlesAndStockDiffer(date', date);
    var front := ARCHIVE_PREFIX + TableName(if titles then "DATA_TITLES" else "STOCK_DATA") + "__";
    var t, t' := front + Replace(date, '/', '_'), front + Replace(date', '/', '_');
    assert t[|front|..] == Replace(date, '/', '_') && t'[|front|..] == Replace(date', '/', '_');
    ReplaceIsInjective(date, date');
  }

  lemma TitlesAndStockDiffer(date: string, date': string)
    ensures TableFromDate("DATA_TITLES", date) != TableFromDate("STOCK_DATA", date')
  {
    assert TableFromDate("DATA_TITLES", date)[9] == 'd';
    assert TableFromDate("STOCK_DATA", date')[9] == 's';
  }

  /** No dated name is one of the four current tables. */
  lemma DatedNamesAreNotCurrent(id: string, date: string)
    ensures TableFromDate(id, date) !in {LAST, TITLES, STOCK, ARCHIVE}
  {
    var t := TableFromDate(id, date);
    assert |t| >= 11 && t[7] == '_';
    assert |LAST| == 10 && |TITLES| == 10 && |STOCK| == 9 && |ARCHIVE| == 7;
  }

  lemma CurrentTablesDiffer()
    ensures LAST != TITLES && LAST != STOCK && LAST != ARCHIVE && TITLES != STOCK && TITLES != ARCHIVE && STOCK != ARCHIVE
  {
    assert LAST[0] == 'l' && TITLES[0] == 'd' && STOCK[0] == 's' && ARCHIVE[0] == 'a';
  }

  /** The names as they stand in the database. */
  lemma NamesInTheDatabase()
    ensures LAST == "lastupdate" && TITLES == "datatitles" && STOCK == "stockdata" && ARCHIVE == "archive"
    ensures forall id :: id !in TABLES ==> TableName(id) == "{?}"
  {
  }

  /** ... and those of archived tables: the slashes of the date become underscores. */
  lemma DatedName(id: string, date: string, dashed: string)
    requires |dashed| == |date| && forall i :: 0 <= i < |date| ==> dashed[i] == if date[i] == '/' then '_' else date[i]
    ensures TableFromDate(id, date) == "archive__" + TableName(id) + "__" + dashed
  {
    hide Replace, TableName;
    assert Replace(date, '/', '_') == dashed;
  }
}
