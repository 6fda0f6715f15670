/** `Report_Requests.get_file` up to the writer call: the group's reports in
    the period, in date order, laid out as the rows of a two-column table
    with a height per row, and the writer, caption and file name chosen. */
module Export {
  import opened Wrappers
  import opened Text
  import opened Dates
  import opened Tables
  import opened Sorting
  import opened Statistics

  // ---------------------------------------------------------------------------
  // ORDER BY date
  // ---------------------------------------------------------------------------

  /** A number that orders dates as the calendar does. */
  function DateKey(d: Date): int {
    d.year * 512 + d.month * 32 + d.day
  }

  /** On calendar dates the key order is the date order. */
  lemma DateKeyOrder(a: Date, b: Date)
    requires ValidDate(a) && ValidDate(b)
    ensures DateKey(a) < DateKey(b) <==> Before(a, b)
    ensures DateKey(a) == DateKey(b) <==> a == b
  {
  }

  function ReportKey(x: Report): int {
    DateKey(x.date)
  }

  /** The selected reports `ORDER BY date`. */
  function ByDate(rs: seq<Report>): seq<Report> {
    SortBy(rs, ReportKey)
  }

  /** Every report of `rs` carries a date `strftime` can print. */
  predicate Printable(rs: seq<Report>) {
    forall k :: 0 <= k < |rs| ==> ValidDate(rs[k].date) && rs[k].date.year <= 9999
  }

  /** The query keeps printable dates printable. */
  lemma SelectedPrintable(reports: seq<Report>, id: int, range: Range)
    requires Printable(reports)
    ensures Printable(Selected(reports, id, range))
  {
    var s := Selected(reports, id, range);
    forall k | 0 <= k < |s| ensures ValidDate(s[k].date) && s[k].date.year <= 9999 {
      assert s[k] in s;
      var m :| 0 <= m < |reports| && reports[m] == s[k];
    }
  }

  /** Date order holds the same reports, earlier dates first. */
  lemma ByDateMeaning(rs: seq<Report>)
    requires Printable(rs)
    ensures multiset(ByDate(rs)) == multiset(rs)
    ensures Printable(ByDate(rs))
    ensures forall i, j :: 0 <= i < j < |ByDate(rs)| ==> NotAfter(ByDate(rs)[i].date, ByDate(rs)[j].date)
  {
    var o := ByDate(rs);
    forall k | 0 <= k < |o| ensures ValidDate(o[k].date) && o[k].date.year <= 9999 {
      assert o[k] in multiset(rs);
      var m :| 0 <= m < |rs| && rs[m] == o[k];
    }
    forall i, j | 0 <= i < j < |o| ensures NotAfter(o[i].date, o[j].date) {
      DateKeyOrder(o[j].date, o[i].date);
    }
  }

  // ---------------------------------------------------------------------------
  // Rows and heights
  // ---------------------------------------------------------------------------

  /** Every row is 25 points high per line of text. */
  const LineHeight: int := 25

  /** `s.count(c)` for a one-character `c`. */
  function CountChar(s: string, c: char): nat {
    multiset(s)[c]
  }

  /** `members.replace(";\n", "\n")`. */
  function OnePerLine(stored: string): string {
    Join(Split(stored, Sep), "\n")
  }

  function HeaderRows(creatorName: string, groupName: string): seq<seq<string>> {
    [["Имя создателя группы", "Название группы"],
     [creatorName, groupName],
     ["Дата создания отчёта", "Участники отчёта"]]
  }

  /** The row of one report: its date and its names, one per line. */
  function ReportRow(x: Report): seq<string>
    requires ValidDate(x.date) && x.date.year <= 9999
  {
    [FormatDate(x.date), OnePerLine(x.members)]
  }

  /** `lines_cnt * 25`, with `lines_cnt = text.count("\n") + 1`. */
  function ReportHeight(x: Report): int {
    (CountChar(OnePerLine(x.members), '\n') + 1) * LineHeight
  }

  function Rows(creatorName: string, groupName: string, ordered: seq<Report>): (r: seq<seq<string>>)
    requires Printable(ordered)
  {
    HeaderRows(creatorName, groupName) + seq(|ordered|, k requires 0 <= k < |ordered| => ReportRow(ordered[k]))
  }

  function Heights(ordered: seq<Report>): seq<int> {
    [LineHeight, LineHeight, LineHeight] + seq(|ordered|, k requires 0 <= k < |ordered| => ReportHeight(ordered[k]))
  }

  lemma RowsStep(creatorName: string, groupName: string, ordered: seq<Report>, i: nat)
    requires Printable(ordered) && i < |ordered|
    ensures Printable(ordered[..i]) && Printable(ordered[..i + 1])
    ensures Rows(creatorName, groupName, ordered[..i + 1])
            == Rows(creatorName, groupName, ordered[..i]) + [ReportRow(ordered[i])]
  {
    var a, b := ordered[..i], ordered[..i + 1];
    assert forall k :: 0 <= k < |b| ==> b[k] == ordered[k];
    var ra := seq(|a|, k requires 0 <= k < |a| => ReportRow(a[k]));
    var rb := seq(|b|, k requires 0 <= k < |b| => ReportRow(b[k]));
    assert rb == ra + [ReportRow(ordered[i])];
  }

  lemma HeightsStep(ordered: seq<Report>, i: nat)
    requires i < |ordered|
    ensures Heights(ordered[..i + 1]) == Heights(ordered[..i]) + [ReportHeight(ordered[i])]
  {
    var a, b := ordered[..i], ordered[..i + 1];
    var ha := seq(|a|, k requires 0 <= k < |a| => ReportHeight(a[k]));
    var hb := seq(|b|, k requires 0 <= k < |b| => ReportHeight(b[k]));
    assert forall k :: 0 <= k < |a| ==> hb[k] == ha[k];
    assert hb == ha + [ReportHeight(ordered[i])];
  }

  /** The loop of `get_file`: `rows_data` and `rows_heights` start with the
      three header rows and grow by one entry per report; `count` is
      `reports_cnt + 3`, the row count the writer is given. */
  method BuildRows(creatorName: string, groupName: string, ordered: seq<Report>)
    returns (count: nat, rows: seq<seq<string>>, heights: seq<int>)
    requires Printable(ordered)
    ensures count == |rows| == |heights| == |ordered| + 3
    ensures rows == Rows(creatorName, groupName, ordered)
    ensures heights == Heights(ordered)
  {
    rows := HeaderRows(creatorName, groupName);
    heights := [LineHeight, LineHeight, LineHeight];
    var reportsCount := 0;
    assert ordered[..0] == [];
    while reportsCount < |ordered|
      invariant 0 <= reportsCount <= |ordered|
      invariant Printable(ordered[..reportsCount])
      invariant rows == Rows(creatorName, groupName, ordered[..reportsCount])
      invariant heights == Heights(ordered[..reportsCount])
    {
      RowsStep(creatorName, groupName, ordered, reportsCount);
      HeightsStep(ordered, reportsCount);
      var x := ordered[reportsCount];
      var text := OnePerLine(x.members);
      rows := rows + [[FormatDate(x.date), text]];
      heights := heights + [(CountChar(text, '\n') + 1) * LineHeight];
      reportsCount := reportsCount + 1;
    }
    assert ordered[..reportsCount] == ordered;
    count := reportsCount + 3;
  }

  lemma NoNewlineNotContained(x: string)
    requires '\n' !in x
    ensures !Contains(x, "\n")
  {
    forall i: nat | i <= |x| ensures !OccursAt(x, "\n", i) {
      if i + 1 <= |x| {
        assert x[i..i + 1][0] == x[i];
      }
    }
  }

  /** Joining newline-free pieces by "\n" gives one newline fewer than
      pieces. */
  lemma {:induction false} JoinNewlines(xs: seq<string>)
    requires |xs| >= 1
    requires forall k :: 0 <= k < |xs| ==> '\n' !in xs[k]
    ensures CountChar(Join(xs, "\n"), '\n') == |xs| - 1
    decreases |xs|
  {
    if |xs| == 1 {
      assert multiset(xs[0])['\n'] == 0;
    } else {
      JoinNewlines(xs[1..]);
      assert multiset(xs[0])['\n'] == 0;
      assert Join(xs, "\n") == xs[0] + "\n" + Join(xs[1..], "\n");
    }
  }

  /** When no name holds a line break, a report's cell lists its names one
      per line (a report naming nobody has a single empty line), and its
      row is 25 points high per name, at least one line. */
  lemma ReportCell(x: Report)
    requires forall k :: 0 <= k < |Split(x.members, Sep)| ==> '\n' !in Split(x.members, Sep)[k]
    ensures Split(OnePerLine(x.members), "\n") == Split(x.members, Sep)
    ensures ReportHeight(x) == LineHeight * (if x.members == "" then 1 else |Members(x.members)|)
  {
    var pieces := Split(x.members, Sep);
    forall k | 0 <= k < |pieces| ensures !Contains(pieces[k], "\n") {
      NoNewlineNotContained(pieces[k]);
    }
    SplitJoin(pieces, "\n");
    JoinNewlines(pieces);
    RawSplit(x.members);
  }

  // ---------------------------------------------------------------------------
  // The result
  // ---------------------------------------------------------------------------

  datatype Writer = XlsxWriter | PdfWriter

  /** "Xlsx" picks the spreadsheet writer, anything else the PDF writer. */
  function WriterFor(fileFormat: string): Writer {
    if fileFormat == "Xlsx" then XlsxWriter else PdfWriter
  }

  /** `s.lower()` over the letters `title()` knows. */
  function Lower(s: string): (r: string)
    ensures |r| == |s|
    ensures forall k :: 0 <= k < |s| ==> r[k] == ToLower(s[k])
  {
    if s == [] then [] else [ToLower(s[0])] + Lower(s[1..])
  }

  /** What the writer is handed and what is sent with the file. */
  datatype Document = Document(
    writer: Writer, rowCount: nat, rows: seq<seq<string>>, heights: seq<int>,
    fileName: string, caption: string)

  /** `get_file` answers either the "no reports" text (and the empty
      caption) or a document. */
  datatype FileResult = NoReportsFile(message: string) | File(doc: Document)

  function FileCaption(groupName: string, range: Range): string
    requires RangeOk(range)
  {
    "Файл отчётов об отсутствии участников группы \"" + groupName + "\" с "
    + FormatDate(range.from) + " по " + FormatDate(range.to) + "."
  }

  /** `get_file` once the group, the creator's name and the period are
      known. */
  function ExportFile(groupName: string, creatorName: string, fileFormat: string,
                      reports: seq<Report>, id: int, range: Range): FileResult
    requires RangeOk(range) && Printable(Selected(reports, id, range))
  {
    var selected := Selected(reports, id, range);
    ByDateMeaning(selected);
    var ordered := ByDate(selected);
    if ordered == [] then NoReportsFile(NoReportsText(groupName, range))
    else File(Document(
      WriterFor(fileFormat), |ordered| + 3, Rows(creatorName, groupName, ordered), Heights(ordered),
      "./database/Отчёты." + Lower(fileFormat), FileCaption(groupName, range)))
  }

  /** No document exactly when no report of the group falls in the
      period. */
  lemma ExportNoReports(groupName: string, creatorName: string, fileFormat: string,
                        reports: seq<Report>, id: int, range: Range)
    requires RangeOk(range) && Printable(Selected(reports, id, range))
    ensures ExportFile(groupName, creatorName, fileFormat, reports, id, range).NoReportsFile?
            <==> forall x :: x in reports ==> !InRange(x, id, range)
  {
    var selected := Selected(reports, id, range);
    ByDateMeaning(selected);
    assert |ByDate(selected)| == |selected|;
    if selected != [] {
      assert selected[0] in selected;
    }
  }

  /** The shape the writer is given: as many rows as heights and as the row
      count, three header rows 25 points high, and the writer the format
      picks. */
  lemma ExportShape(groupName: string, creatorName: string, fileFormat: string,
                    reports: seq<Report>, id: int, range: Range)
    requires RangeOk(range) && Printable(Selected(reports, id, range))
    ensures var r := ExportFile(groupName, creatorName, fileFormat, reports, id, range);
            r.File? ==>
              r.doc.rowCount == |r.doc.rows| == |r.doc.heights| == |Selected(reports, id, range)| + 3
              && r.doc.rows[..3] == HeaderRows(creatorName, groupName)
              && r.doc.heights[..3] == [LineHeight, LineHeight, LineHeight]
              && r.doc.writer == (if fileFormat == "Xlsx" then XlsxWriter else PdfWriter)
  {
    ByDateMeaning(Selected(reports, id, range));
  }

  /** Row `k + 3` is the report `k` of the period in date order: its date
      cell reads back as the date of a report of the group in the period,
      and the dates never go down. */
  lemma ExportDates(groupName: string, creatorName: string, fileFormat: string,
                    reports: seq<Report>, id: int, range: Range)
    requires RangeOk(range) && Printable(Selected(reports, id, range))
    ensures var r := ExportFile(groupName, creatorName, fileFormat, reports, id, range);
            r.File? ==>
              (forall k :: 3 <= k < r.doc.rowCount ==>
                 |r.doc.rows[k]| == 2 && ParseDate(r.doc.rows[k][0]).Some?
                 && (exists x :: x in reports && InRange(x, id, range) && x.date == ParseDate(r.doc.rows[k][0]).value))
              && (forall i, j :: 3 <= i < j < r.doc.rowCount ==>
                    NotAfter(ParseDate(r.doc.rows[i][0]).value, ParseDate(r.doc.rows[j][0]).value))
  {
    var selected := Selected(reports, id, range);
    ByDateMeaning(selected);
    var ordered := ByDate(selected);
    var r := ExportFile(groupName, creatorName, fileFormat, reports, id, range);
    if r.File? {
      var rows := r.doc.rows;
      assert rows == Rows(creatorName, groupName, ordered);
      RowDates(creatorName, groupName, ordered);
      forall k | 0 <= k < |ordered|
        ensures exists x :: x in reports && InRange(x, id, range) && x.date == ordered[k].date
      {
        assert ordered[k] in multiset(selected);
        assert ordered[k] in selected;
      }
    }
  }

  /** The date cell of row `k + 3` reads back as the date of report `k`. */
  lemma RowDates(creatorName: string, groupName: string, ordered: seq<Report>)
    requires Printable(ordered)
    ensures forall k :: 3 <= k < |ordered| + 3 ==>
              |Rows(creatorName, groupName, ordered)[k]| == 2
              && ParseDate(Rows(creatorName, groupName, ordered)[k][0]) == Some(ordered[k - 3].date)
  {
    var rows := Rows(creatorName, groupName, ordered);
    forall k | 3 <= k < |ordered| + 3
      ensures |rows[k]| == 2 && ParseDate(rows[k][0]) == Some(ordered[k - 3].date)
    {
      assert rows[k] == ReportRow(ordered[k - 3]);
      ParseFormat(ordered[k - 3].date);
    }
  }
}
