/** The Excel export's pure parts: the timestamp in the file name, the
    file name itself, and the guard against exporting nothing. Writing the
    workbook is left to the spreadsheet library. */
module ExcelExport {
  import opened Wrappers
  import opened JsText

  /** The calendar fields formatDate reads from a Date (local time) */
  datatype DateTime = DateTime(year: nat, monthIndex: nat, day: nat, hours: nat, minutes: nat)

  predicate ValidDateTime(d: DateTime) {
    d.monthIndex <= 11 && 1 <= d.day <= 31 && d.hours <= 23 && d.minutes <= 59
  }

  /** `String(n).padStart(2, "0")` */
  function Pad2(n: nat): (r: string)
    ensures |r| >= 2 && IsDigits(r) && Value(r) == n
  {
    PaddedDecimalValue(n, 2);
    PadStart(Decimal(n), 2, '0')
  }

  lemma Pad2Digits(n: nat)
    requires n < 100
    ensures |Pad2(n)| == 2 && IsDigits(Pad2(n)) && Value(Pad2(n)) == n
  {
    DecimalDigits(n);
    if n >= 10 {
      assert Decimal(n) == Decimal(n / 10) + [DigitChar(n % 10)];
    }
  }

  /** formatDate: year, month (1-based), day, "-", hours, minutes */
  function FormatDate(d: DateTime): (r: string)
    ensures |r| >= |Decimal(d.year)| + 9 && r[..|Decimal(d.year)|] == Decimal(d.year)
  {
    Decimal(d.year) + Pad2(d.monthIndex + 1) + Pad2(d.day) + "-" + Pad2(d.hours) + Pad2(d.minutes)
  }

  /** For a four-digit year the stamp is 13 characters with the dash at
      index 8, and each field reads back from its place. */
  lemma FormatDateLayout(d: DateTime)
    requires ValidDateTime(d) && 1000 <= d.year <= 9999
    ensures var s := FormatDate(d);
      && |s| == 13 && s[8] == '-'
      && IsDigits(s[..8]) && IsDigits(s[9..])
      && Value(s[..4]) == d.year
      && Value(s[4..6]) == d.monthIndex + 1
      && Value(s[6..8]) == d.day
      && Value(s[9..11]) == d.hours
      && Value(s[11..13]) == d.minutes
  {
    var y := Decimal(d.year);
    YearDigits(d.year);
    var mo := Pad2(d.monthIndex + 1);
    var da := Pad2(d.day);
    var h := Pad2(d.hours);
    var mi := Pad2(d.minutes);
    Pad2Digits(d.monthIndex + 1);
    Pad2Digits(d.day);
    Pad2Digits(d.hours);
    Pad2Digits(d.minutes);
    var s := FormatDate(d);
    assert s == y + mo + da + "-" + h + mi;
    assert s[..4] == y;
    assert s[4..6] == mo;
    assert s[6..8] == da;
    assert s[9..11] == h;
    assert s[11..13] == mi;
    assert s[..8] == y + mo + da;
    assert s[9..] == h + mi;
  }

  /** A four-digit year is spelled with four digits. */
  lemma YearDigits(year: nat)
    requires 1000 <= year <= 9999
    ensures |Decimal(year)| == 4 && IsDigits(Decimal(year)) && Value(Decimal(year)) == year
  {
    DecimalDigits(year);
    assert Decimal(year) == Decimal(year / 10) + [DigitChar(year % 10)];
    assert Decimal(year / 10) == Decimal(year / 100) + [DigitChar(year / 10 % 10)];
    assert Decimal(year / 100) == Decimal(year / 1000) + [DigitChar(year / 100 % 10)];
  }

  /** The second parameter's default */
  const DefaultFileName := "export"

  /** The name the workbook is written under */
  function ExportFileName(fileName: Option<string>, d: DateTime): (r: string)
    ensures |r| >= 5 && r[|r| - 5..] == ".xlsx"
    ensures fileName.None? ==> |r| > 7 && r[..7] == "export-"
  {
    fileName.GetOr(DefaultFileName) + "-" + FormatDate(d) + ".xlsx"
  }

  /** The column widths set on the sheet, in characters */
  const ColumnWidths: seq<nat> := [10, 30, 50, 20, 10, 15]

  const SheetName := "Productos"

  /** What exportToExcel asks the library to do: nothing for missing or
      empty data, otherwise one sheet of the rows under the dated name. */
  datatype Export<T> = NoExport | Workbook(rows: seq<T>, sheet: string, widths: seq<nat>, name: string)

  function ExportToExcel<T>(data: Option<seq<T>>, fileName: Option<string>, d: DateTime): (r: Export<T>)
    ensures r.NoExport? <==> data.None? || |data.value| == 0
    ensures r.Workbook? ==> r.rows == data.value && r.sheet == SheetName
    ensures r.Workbook? ==> r.widths == ColumnWidths && r.name == ExportFileName(fileName, d)
  {
    if data.None? || |data.value| == 0 then NoExport
    else Workbook(data.value, SheetName, ColumnWidths, ExportFileName(fileName, d))
  }

  /** The file name is the base, a dash, the 13-character stamp and the
      extension; the stamp can be read back from it. */
  lemma FileNameLayout(fileName: Option<string>, d: DateTime)
    requires ValidDateTime(d) && 1000 <= d.year <= 9999
    ensures var base := fileName.GetOr(DefaultFileName); var n := ExportFileName(fileName, d);
      && |n| == |base| + 19
      && n[..|base|] == base
      && n[|base|] == '-'
      && n[|base| + 1..|base| + 14] == FormatDate(d)
      && n[|base| + 14..] == ".xlsx"
  {
    FormatDateLayout(d);
    var base := fileName.GetOr(DefaultFileName);
    var n := ExportFileName(fileName, d);
    assert n == base + "-" + FormatDate(d) + ".xlsx";
  }
}
