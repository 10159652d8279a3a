/** A date that comes back after it was replaced: what is shown under it then is not archived. */
module Returning {
  import opened Text
  import opened Database
  import opened DbTables
  import opened Stamp
  import opened Ingest
  import opened DataService
  import opened Archive
  import opened Atomicity
  import opened Fidelity
  import opened Completeness

  /** A workbook with another stamp than the one before it is what is shown next. */
  lemma LatestIsContent(bs: seq<Workbook>, k: nat)
    requires AllWellDated(bs) && k < |bs| && (k > 0 ==> StampOf(bs[k - 1]) != StampOf(bs[k]))
    ensures LatestData(DbAt(bs, k + 1)) == Data(ContentOf(bs[k]))
  {
    assert WellDated(bs[k]);
    hide WellFormed, LatestData, ContentOf, Stored, StampOf, Compared, RunInv;
    if k == 0 {
      FirstUpdate(bs);
      StoredReadsBack(bs[0], INITIAL);
    } else {
      RunKeepsInv(bs, k);
      NextUpdate(bs, k);
      StoredReadsBack(bs[k], Compared(DbAt(bs, k), StampOf(bs[k - 1]), StampOf(bs[k]).0));
    }
  }

  /** Completeness fails as soon as a date comes back with other content: of four workbooks of which the third
      has the date of the first, the archive keeps the content of the first and loses that of the third. */
  lemma ReturningDateIsLost(p: Workbook, q: Workbook, r: Workbook, s: Workbook)
    requires WellDated(p) && WellDated(q) && WellDated(r) && WellDated(s)
    requires DateOfBook(p) == DateOfBook(r) != DateOfBook(q) && DateOfBook(s) != DateOfBook(r)
    requires ContentOf(p) != ContentOf(r)
    ensures var bs := [p, q, r, s];
            DataByDate(DbAt(bs, 4), DateId(DateOfBook(r))) == Data(ContentOf(p)) &&
            LatestData(DbAt(bs, 3)) == Data(ContentOf(r)) != Data(ContentOf(p))
  {
    var bs, d := [p, q, r, s], DateOfBook(r);
    assert bs[0] == p && bs[1] == q && bs[2] == r && bs[3] == s;
    assert StampOf(q) != StampOf(r);
    assert ReplacedAt(bs, 0, d) && !WasReplaced(bs, 1, d);
    hide WellDated, ContentOf, DataByDate, LatestData, DbAt, DateId, StampOf, DateOfBook, ReplacedAt, WasReplaced;
    assert AllWellDated(bs);
    ArchiveShowsFirst(bs, 0, 4, d);
    LatestIsContent(bs, 0);
    LatestIsContent(bs, 2);
  }

  /** A smallest workbook: one title, one value. */
  function Sample(date: string, value: string): Workbook {
    Workbook([date, "Close", value],
             [SheetRow(1, [Cell("A1", "s", Some(0), None)]), SheetRow(2, [Cell("A2", "s", Some(1), None)]),
              SheetRow(3, [Cell("A3", "s", Some(2), None)])])
  }

  lemma SampleIsWellFormed(date: string, value: string)
    requires IsNormal(DateStamp, date)
    ensures WellDated(Sample(date, value))
    ensures DateOfBook(Sample(date, value)) == date
    ensures ContentOf(Sample(date, value)).data == [[value]]
  {
    hide Stamped, IsNormal, DateOfBook;
    var b := Sample(date, value);
    assert FirstStamp(b.rows[0].cells, 0) == 0 && HasStamp(b.rows[0]);
    assert IsCellRef("A2") by { assert Letters("A2"[..1]) && Numerals("A2"[1..]); }
    hide IsCellRef;
    assert Header(b) == [b.rows[1].cells[0]];
    assert GoodTitle(b, b.rows[1].cells[0]);
    assert GoodRow(b, b.rows[2]);
    assert WellFormed(b);
    SampleDate(date, value);
    assert ValueAt(b, 2, 0) == value;
    assert ShownRow(b, 2) == [value] && ShownRows(b, 3) == ShownRows(b, 2) + [ShownRow(b, 2)];
  }

  lemma SampleDate(date: string, value: string)
    requires IsNormal(DateStamp, date)
    ensures DateOfBook(Sample(date, value)) == date
  {
    NormalIsFixed(DateStamp, date, "");
    hide Stamped, IsNormal;
    var b := Sample(date, value);
    assert FirstStamp(b.rows[0].cells, 0) == 0;
    assert StampFrom(b, 1, date, Stamped(TimeStamp, date, "")) == StampFrom(b, 3, date, Stamped(TimeStamp, date, "")) by {
      assert StampFrom(b, 2, date, Stamped(TimeStamp, date, "")) == StampFrom(b, 3, date, Stamped(TimeStamp, date, ""));
    }
  }

  lemma TwoDates()
    ensures IsNormal(DateStamp, "1392/11/15") && IsNormal(DateStamp, "1392/11/16") && "1392/11/15" != "1392/11/16"
  {
    assert "1392/11/15"[9] != "1392/11/16"[9];
  }

  /** A run in which date `d` comes back with another value. */
  function ReturningRun(d: string, e: string): (bs: seq<Workbook>) {
    [Sample(d, "1"), Sample(e, "1"), Sample(d, "2"), Sample(e, "2")]
  }

  /** On all such runs the archive does not show what was last shown. */
  lemma ReturningRunLosesData(d: string, e: string)
    requires IsNormal(DateStamp, d) && IsNormal(DateStamp, e) && d != e
    ensures AllWellDated(ReturningRun(d, e)) && ReplacedAt(ReturningRun(d, e), 2, d)
    ensures DataByDate(DbAt(ReturningRun(d, e), 4), DateId(d)) != LatestData(DbAt(ReturningRun(d, e), 3))
  {
    hide IsNormal, WellFormed, ContentOf, DataByDate, LatestData, DbAt, DateId, DateOfBook, Sample;
    SampleIsWellFormed(d, "1");
    SampleIsWellFormed(e, "1");
    SampleIsWellFormed(d, "2");
    SampleIsWellFormed(e, "2");
    assert [["1"]][0][0][0] != [["2"]][0][0][0];
    ReturningDateIsLost(Sample(d, "1"), Sample(e, "1"), Sample(d, "2"), Sample(e, "2"));
  }

  /** Completeness fails without the condition on returning dates: two dates for such a run. */
  lemma CompletenessFails()
    ensures var bs := ReturningRun("1392/11/15", "1392/11/16");
            AllWellDated(bs) && ReplacedAt(bs, 2, "1392/11/15") &&
            DataByDate(DbAt(bs, 4), DateId("1392/11/15")) != LatestData(DbAt(bs, 3))
  {
    hide *;
    TwoDates();
    ReturningRunLosesData("1392/11/15", "1392/11/16");
  }
}
