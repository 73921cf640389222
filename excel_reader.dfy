/** ExcelReader's cell layer: what a cell reads as, when it counts as empty, how an
    A1 reference and a "start:end" range are parsed, the upward EOF scan for the last
    row holding data, and countNonEmptyCells. */
module ExcelReader {
  import opened Outcomes
  import opened Strings
  import opened Cells

  /** The Java object getCellValue returns: null, a String, an Integer or Long (one
      case, since the two never hold the same number), a Double, a Boolean or a Date.
      Two values are equal exactly when the Java objects are `equals`. */
  datatype Value =
    | Null
    | Text(s: string)
    | Integer(i: int)
    | Double(n: Number)
    | Boolean(b: bool)
    | Date(shown: string)

  const LongMin: int := -0x8000_0000_0000_0000
  const LongMax: int := 0x7FFF_FFFF_FFFF_FFFF

  predicate InLongRange(i: int) { LongMin <= i <= LongMax }

  /** The cast `(long) d` of a whole double: the number itself within the long range,
      otherwise the nearer end of the range (JLS 5.1.3). */
  function LongCast(i: int): (l: int)
    ensures InLongRange(l)
    ensures InLongRange(i) ==> l == i
    ensures !InLongRange(i) ==> (l == LongMax <==> i > LongMax)
  {
    if i > LongMax then LongMax else if i < LongMin then LongMin else i
  }

  /** getCellValue: a string as itself, a whole number as an Integer or Long and any
      other number as a double, a date as a date; a formula as its cached number (always
      a Double), else its cached string, else its formula text; blank and error as null.
      A whole number beyond the long range saturates, as `(long) numValue` does. */
  function GetCellValue(cell: Option<Cell>): (v: Value)
    ensures v.Null? <==> cell.None? || cell.value.BlankCell? || cell.value.ErrorCell?
    ensures v.Integer? <==> cell.Some? && cell.value.NumericCell? && cell.value.n.Whole?
    ensures v.Integer? ==> InLongRange(v.i) && (InLongRange(cell.value.n.i) <==> v.i == cell.value.n.i)
    ensures v.Double? && v.n.Whole? ==> cell.Some? && cell.value.FormulaCell?
  {
    match cell
    case None => Null
    case Some(c) =>
      match c
      case BlankCell => Null
      case ErrorCell => Null
      case StringCell(s) => Text(s)
      case NumericCell(n) => if n.Whole? then Integer(LongCast(n.i)) else Double(n)
      case DateCell(shown) => Date(shown)
      case BooleanCell(b) => Boolean(b)
      case FormulaCell(result) =>
        match result
        case NumberResult(n) => Double(n)
        case TextResult(s) => Text(s)
        case OtherResult(formula) => Text(formula)
  }

  /** `toString()` of the value; null is written "" by every caller. */
  function ValueText(v: Value): string
  {
    match v
    case Null => ""
    case Text(s) => s
    case Integer(i) => IntToString(i)
    case Double(n) => DoubleToString(n)
    case Boolean(b) => BoolToString(b)
    case Date(shown) => shown
  }

  /** isEmpty: a missing cell, a blank cell, or a string cell holding only spaces.
      Numbers, booleans, formulas and errors are never empty. */
  predicate IsEmpty(cell: Option<Cell>)
  {
    cell.None? || cell.value.BlankCell? || (cell.value.StringCell? && IsBlank(cell.value.s))
  }

  /** A cell that is not empty reads as a value other than null, except an error cell. */
  lemma NonEmptyValue(cell: Option<Cell>)
    requires !IsEmpty(cell)
    ensures GetCellValue(cell).Null? <==> cell == Some(ErrorCell)
    ensures GetCellValue(cell).Text? && cell.value.StringCell? ==> Trim(ValueText(GetCellValue(cell))) != []
  {
    if cell.value.StringCell? {
      BlankIffTrimEmpty(cell.value.s);
    }
  }

  // ---------------------------------------------------------------- references

  /** A parsed reference: 0-based column and row. */
  datatype Ref = Ref(col: nat, row: int)

  /** new CellReference(s) for text in the `[A-Za-z]+[0-9]+` form; the row digits go
      through Integer.parseInt, so a row beyond the `int` range is a
      NumberFormatException. Other reference syntaxes are not modelled. */
  function CellReference(s: string): (r: Result<Ref>)
    ensures !IsCellRef(s) ==> r == Err(UnsupportedReference(s))
    ensures IsCellRef(s) ==> (r.Ok? <==> RefRow(s) < IntMax)
    ensures r.Ok? ==> r.value == Ref(RefColumn(s), RefRow(s))
  {
    if !IsCellRef(s) then Err(UnsupportedReference(s))
    else
      var digits := s[LetterRun(s)..];
      ParseIntOfDigits(digits);
      var n :- ParseInt(digits);
      Ok(Ref(RefColumn(s), n - 1))
  }

  /** readCellValue(sheet, ref): the value at the reference, null where the row or the
      cell is missing; a null sheet is a NullPointerException once the reference parsed. */
  function ReadCellValue(sheet: Option<Sheet>, ref: string): (r: Result<Value>)
    ensures r.Ok? ==> sheet.Some? && CellReference(ref).Ok?
    ensures r.Ok? ==> r.value == GetCellValue(CellAt(sheet.value, CellReference(ref).value.row, CellReference(ref).value.col))
  {
    var at :- CellReference(ref);
    if sheet.None? then Err(NullPointer)
    else Ok(GetCellValue(CellAt(sheet.value, at.row, at.col)))
  }

  /** Reading the reference written for a cell reads that cell. */
  lemma ReadCellValueOfCellName(sheet: Sheet, col: nat, row: nat)
    requires row < IntMax
    ensures ReadCellValue(Some(sheet), CellName(col, row)) == Ok(GetCellValue(CellAt(sheet, row, col)))
  {
    CellNameRoundTrip(col, row);
  }

  // ---------------------------------------------------------------- ranges

  /** A parsed "start:end" range: with an EOF end only the start is known. */
  datatype Range =
    | ToEof(startRow: int, startCol: nat)
    | Explicit(startRow: int, startCol: nat, endRow: int, endCol: nat)

  const BadRange := "รูปแบบช่วงไม่ถูกต้อง: "
  const BadStart := "รูปแบบเซลล์เริ่มต้นไม่ถูกต้อง: "
  const BadEnd := "รูปแบบเซลล์สิ้นสุดไม่ถูกต้อง: "

  /** The range parsing shared by countNonEmptyCells, getAllValuesInRange and
      checkDuplicateValuesInRange: split on ':' into exactly two parts, each trimmed;
      the start must match `[A-Za-z]+[0-9]+`; an end equal to "EOF" ignoring case
      leaves the end open, otherwise it must match the same pattern. */
  function ParseRange(rangeStr: string): (r: Result<Range>)
    ensures |JavaSplit(rangeStr, ':')| != 2 ==> r == Err(IllegalArgument(BadRange + rangeStr))
    ensures r.Ok? ==> |JavaSplit(rangeStr, ':')| == 2
    ensures r.Ok? ==> var start := Trim(JavaSplit(rangeStr, ':')[0]);
                      IsCellRef(start) && r.value.startCol == RefColumn(start) && r.value.startRow == RefRow(start)
    ensures r.Ok? ==> (r.value.ToEof? <==> EqualsIgnoreCase(Trim(JavaSplit(rangeStr, ':')[1]), "EOF"))
    ensures r.Ok? && r.value.Explicit? ==> var end := Trim(JavaSplit(rangeStr, ':')[1]);
                      IsCellRef(end) && r.value.endCol == RefColumn(end) && r.value.endRow == RefRow(end)
    ensures r.Err? ==> r.failure.IllegalArgument?
  {
    var parts := JavaSplit(rangeStr, ':');
    if |parts| != 2 then Err(IllegalArgument(BadRange + rangeStr))
    else
      var start, end := Trim(parts[0]), Trim(parts[1]);
      if !IsCellRef(start) then Err(IllegalArgument(BadStart + start))
      else
        var from :- CellReference(start);
        if EqualsIgnoreCase(end, "EOF") then Ok(ToEof(from.row, from.col))
        else if !IsCellRef(end) then Err(IllegalArgument(BadEnd + end))
        else
          var to :- CellReference(end);
          Ok(Explicit(from.row, from.col, to.row, to.col))
  }

  /** Text without ':' and without surrounding spaces, such as a written reference. */
  lemma CellNameIsToken(col: nat, row: nat)
    ensures ':' !in CellName(col, row)
    ensures Trim(CellName(col, row)) == CellName(col, row)
    ensures !EqualsIgnoreCase(CellName(col, row), "EOF")
  {
    var s := CellName(col, row);
    var letters, digits := ColString(col), NatToString(row + 1);
    assert s == letters + digits;
    forall k | 0 <= k < |s| ensures s[k] != ':' && !IsSpace(s[k]) {
      if k < |letters| { assert s[k] == letters[k]; } else { assert s[k] == digits[k - |letters|]; }
    }
    TrimOfTrimmed(s);
    assert s[|s| - 1] == digits[|digits| - 1];
    if |s| == 3 { assert Upper(s[2]) != 'F'; }
  }

  /** Two references joined by ':' parse to an explicit range between them. */
  lemma ParseRangeOfRefs(a: string, b: string)
    requires ':' !in a && ':' !in b && Trim(a) == a && Trim(b) == b
    requires IsCellRef(a) && IsCellRef(b) && !EqualsIgnoreCase(b, "EOF")
    requires RefRow(a) < IntMax && RefRow(b) < IntMax
    ensures ParseRange(a + ":" + b) == Ok(Explicit(RefRow(a), RefColumn(a), RefRow(b), RefColumn(b)))
  {
    assert b != [];
    SplitTwo(a, b, ':');
    assert a + ":" + b == a + [':'] + b;
  }

  /** A reference joined to "EOF" by ':' parses to an open range from it. */
  lemma ParseRangeOfRefEof(a: string)
    requires ':' !in a && Trim(a) == a && IsCellRef(a) && RefRow(a) < IntMax
    ensures ParseRange(a + ":EOF") == Ok(ToEof(RefRow(a), RefColumn(a)))
  {
    assert ':' !in "EOF";
    SplitTwo(a, "EOF", ':');
    assert a + ":EOF" == a + [':'] + "EOF";
    assert Trim("EOF") == "EOF" by { TrimOfTrimmed("EOF"); }
  }

  /** "A1:B2" written from two cells parses back to those cells. */
  lemma ParseRangeOfNames(c1: nat, r1: nat, c2: nat, r2: nat)
    requires r1 < IntMax && r2 < IntMax
    ensures ParseRange(CellName(c1, r1) + ":" + CellName(c2, r2)) == Ok(Explicit(r1, c1, r2, c2))
  {
    CellNameIsToken(c1, r1);
    CellNameIsToken(c2, r2);
    CellNameRoundTrip(c1, r1);
    CellNameRoundTrip(c2, r2);
    ParseRangeOfRefs(CellName(c1, r1), CellName(c2, r2));
  }

  /** "A1:EOF" written from a cell parses to an open range from that cell. */
  lemma ParseRangeOfEof(col: nat, row: nat)
    requires row < IntMax
    ensures ParseRange(CellName(col, row) + ":EOF") == Ok(ToEof(row, col))
  {
    CellNameIsToken(col, row);
    CellNameRoundTrip(col, row);
    ParseRangeOfRefEof(CellName(col, row));
  }

  // ---------------------------------------------------------------- the EOF scan

  /** The start-column cell of row r is present and not empty. */
  predicate HasData(sheet: Sheet, r: int, col: int)
  {
    !IsEmpty(CellAt(sheet, r, col))
  }

  /** The largest row in lo..hi whose cell in the column holds data, if any. */
  function LastDataRow(sheet: Sheet, col: int, lo: int, hi: int): (r: Option<int>)
    ensures r.Some? ==> lo <= r.value <= hi && HasData(sheet, r.value, col)
    ensures r.Some? ==> forall k | r.value < k <= hi :: !HasData(sheet, k, col)
    ensures r.None? ==> forall k | lo <= k <= hi :: !HasData(sheet, k, col)
    decreases hi - lo
  {
    if hi < lo then None
    else if HasData(sheet, hi, col) then Some(hi)
    else LastDataRow(sheet, col, lo, hi - 1)
  }

  /** The loop that walks up from getLastRowNum to the start row and stops at the
      first cell holding data. */
  method FindLastDataRow(sheet: Sheet, col: int, startRow: int) returns (found: Option<int>)
    ensures found == LastDataRow(sheet, col, startRow, sheet.lastRowNum)
  {
    var r := sheet.lastRowNum;
    while r >= startRow
      invariant r <= sheet.lastRowNum
      invariant LastDataRow(sheet, col, startRow, sheet.lastRowNum) == LastDataRow(sheet, col, startRow, r)
      decreases r - startRow
    {
      if HasData(sheet, r, col) {
        return Some(r);
      }
      r := r - 1;
    }
    return None;
  }

  // ---------------------------------------------------------------- counting

  /** The number of rows in lo..hi whose cell in the column holds data. */
  function CountData(sheet: Sheet, col: int, lo: int, hi: int): (n: nat)
    ensures n <= if hi < lo then 0 else hi - lo + 1
    decreases hi - lo
  {
    if hi < lo then 0 else CountData(sheet, col, lo, hi - 1) + (if HasData(sheet, hi, col) then 1 else 0)
  }

  /** The rows in lo..hi whose cell in the column holds data. */
  function DataRows(sheet: Sheet, col: int, lo: int, hi: int): set<int>
  {
    set r | lo <= r <= hi && HasData(sheet, r, col)
  }

  /** CountData counts exactly the rows of DataRows. */
  lemma {:induction false} CountDataIsSize(sheet: Sheet, col: int, lo: int, hi: int)
    ensures CountData(sheet, col, lo, hi) == |DataRows(sheet, col, lo, hi)|
    decreases hi - lo
  {
    if hi < lo {
      assert DataRows(sheet, col, lo, hi) == {};
    } else {
      CountDataIsSize(sheet, col, lo, hi - 1);
      var below := DataRows(sheet, col, lo, hi - 1);
      assert hi !in below;
      if HasData(sheet, hi, col) {
        assert DataRows(sheet, col, lo, hi) == below + {hi};
      } else {
        assert DataRows(sheet, col, lo, hi) == below;
      }
    }
  }

  /** Rows without data at the top of a range do not change its count. */
  lemma {:induction false} CountDataEmptyTop(sheet: Sheet, col: int, lo: int, mid: int, hi: int)
    requires mid <= hi
    requires forall k | mid < k <= hi :: !HasData(sheet, k, col)
    ensures CountData(sheet, col, lo, mid) == CountData(sheet, col, lo, hi)
    decreases hi - mid
  {
    if mid < hi {
      CountDataEmptyTop(sheet, col, lo, mid, hi - 1);
    }
  }

  /** What countNonEmptyCells returns for a sheet that may be null: the cells holding
      data in the start column, from the start row to the explicit end row (whose
      column is ignored) or, for EOF, to the last row of that column holding data.
      A null sheet fails as soon as a row would be read. */
  function NonEmptyCount(sheet: Option<Sheet>, rangeStr: string): (r: Result<int>)
    ensures ParseRange(rangeStr).Err? ==> r == Err(ParseRange(rangeStr).failure)
    ensures r.Ok? ==> r.value >= 0
  {
    var range :- ParseRange(rangeStr);
    match range
    case ToEof(startRow, col) =>
      if sheet.None? then Err(NullPointer)
      else
        (match LastDataRow(sheet.value, col, startRow, sheet.value.lastRowNum)
         case None => Ok(0)
         case Some(endRow) => Ok(CountData(sheet.value, col, startRow, endRow)))
    case Explicit(startRow, col, endRow, _) =>
      if sheet.None? then (if startRow <= endRow then Err(NullPointer) else Ok(0))
      else Ok(CountData(sheet.value, col, startRow, endRow))
  }

  /** With an EOF end, the count is every start-column cell holding data from the start
      row to the last row of the sheet. */
  lemma EofCountsToLastRow(sheet: Sheet, rangeStr: string)
    requires ParseRange(rangeStr).Ok? && ParseRange(rangeStr).value.ToEof?
    ensures NonEmptyCount(Some(sheet), rangeStr) ==
      Ok(|DataRows(sheet, ParseRange(rangeStr).value.startCol, ParseRange(rangeStr).value.startRow, sheet.lastRowNum)|)
  {
    var range := ParseRange(rangeStr).value;
    var col, lo := range.startCol, range.startRow;
    CountDataIsSize(sheet, col, lo, sheet.lastRowNum);
    match LastDataRow(sheet, col, lo, sheet.lastRowNum)
    case None =>
      assert DataRows(sheet, col, lo, sheet.lastRowNum) == {};
    case Some(endRow) =>
      CountDataEmptyTop(sheet, col, lo, endRow, sheet.lastRowNum);
  }

  /** An explicit range counts the start-column cells holding data between the two rows. */
  lemma ExplicitCountsRows(sheet: Sheet, c1: nat, r1: nat, c2: nat, r2: nat)
    requires r1 < IntMax && r2 < IntMax
    ensures NonEmptyCount(Some(sheet), CellName(c1, r1) + ":" + CellName(c2, r2)) == Ok(|DataRows(sheet, c1, r1, r2)|)
  {
    ParseRangeOfNames(c1, r1, c2, r2);
    CountDataIsSize(sheet, c1, r1, r2);
  }

  /** countNonEmptyCells: the upward EOF scan, then the counting loop. */
  method CountNonEmptyCells(sheet: Option<Sheet>, rangeStr: string) returns (r: Result<int>)
    ensures r == NonEmptyCount(sheet, rangeStr)
  {
    var range :- ParseRange(rangeStr);
    var startRow, col := range.startRow, range.startCol;
    var endRow;
    if range.ToEof? {
      if sheet.None? {
        return Err(NullPointer);
      }
      var last := FindLastDataRow(sheet.value, col, startRow);
      if last.None? {
        return Ok(0);
      }
      endRow := last.value;
    } else {
      endRow := range.endRow;
    }
    if startRow > endRow {
      return Ok(0);
    }
    if sheet.None? {
      return Err(NullPointer);
    }
    var count := CountRows(sheet.value, col, startRow, endRow);
    return Ok(count);
  }

  /** The counting loop of countNonEmptyCells over rows lo..hi. */
  method CountRows(sheet: Sheet, col: int, lo: int, hi: int) returns (count: nat)
    requires lo <= hi
    ensures count == CountData(sheet, col, lo, hi)
  {
    count := 0;
    var row := lo;
    while row <= hi
      invariant lo <= row <= hi + 1
      invariant count == CountData(sheet, col, lo, row - 1)
      decreases hi - row
    {
      if HasData(sheet, row, col) {
        count := count + 1;
      }
      row := row + 1;
    }
  }

  // ---------------------------------------------------------------- file-level calls

  const NotExcel := "ไฟล์ไม่ใช่รูปแบบ Excel (.xls หรือ .xlsx)"

  /** The file-name test of every call that opens a workbook: the lower-cased name
      ends with ".xlsx" or ".xls". */
  predicate IsExcelFile(fileName: string)
  {
    EndsWith(ToLower(fileName), ".xlsx") || EndsWith(ToLower(fileName), ".xls")
  }

  /** The message for a sheet name the workbook does not have. */
  function SheetNotFound(sheetName: string): string
  {
    "ไม่พบชีท '" + sheetName + "' ในไฟล์"
  }

  /** Workbook.getSheet, failing with the sheet-not-found message. */
  function GetSheet(workbook: Workbook, sheetName: string): (r: Result<Sheet>)
    ensures r.Ok? <==> sheetName in workbook
    ensures r.Ok? ==> r.value == workbook[sheetName]
    ensures r.Err? ==> r.failure == IllegalArgument(SheetNotFound(sheetName))
  {
    if sheetName in workbook then Ok(workbook[sheetName]) else Err(IllegalArgument(SheetNotFound(sheetName)))
  }

  /** countCells(fileName, sheetName, rangeStr), on the workbook the file holds. */
  function CountCells(workbook: Workbook, fileName: string, sheetName: string, rangeStr: string): (r: Result<int>)
    ensures !IsExcelFile(fileName) ==> r == Err(IllegalArgument(NotExcel))
    ensures IsExcelFile(fileName) && sheetName !in workbook ==> r == Err(IllegalArgument(SheetNotFound(sheetName)))
    ensures IsExcelFile(fileName) && sheetName in workbook ==> r == NonEmptyCount(Some(workbook[sheetName]), rangeStr)
  {
    if !IsExcelFile(fileName) then Err(IllegalArgument(NotExcel))
    else
      var sheet :- GetSheet(workbook, sheetName);
      NonEmptyCount(Some(sheet), rangeStr)
  }

  /** readCellValue(workbook, sheetName, ref). */
  function ReadCellValueIn(workbook: Workbook, sheetName: string, ref: string): (r: Result<Value>)
    ensures sheetName !in workbook ==> r == Err(IllegalArgument(SheetNotFound(sheetName)))
    ensures sheetName in workbook ==> r == ReadCellValue(Some(workbook[sheetName]), ref)
  {
    var sheet :- GetSheet(workbook, sheetName);
    ReadCellValue(Some(sheet), ref)
  }
}
