/** ExcelUtil: sheet utilities over an open workbook. A cell reference is split into its
    column letters and its row number by deleting characters, the letters are folded into
    a 0-based column index, and the workbook is read cell by cell: a single value, a
    rectangle or a whole sheet turned into keyed records, the values of one column that
    occur in more than one row, and the number of cells of a column that hold a value. */
module ExcelUtilities {
  import opened Outcomes
  import opened Strings
  import opened Cells
  import ExcelReader

  // ---------------------------------------------------------------- cell text

  /** getCellValueAsString: a string as itself, a date as Date.toString, a whole number
      with "%.0f" (its digits, no point), any other number as Double.toString, a boolean
      as "true"/"false", a formula as its cached number, else its cached string, else its
      formula text; a missing, blank or error cell as "". */
  function CellString(cell: Option<Cell>): string
  {
    match cell
    case None => ""
    case Some(c) =>
      match c
      case StringCell(s) => s
      case DateCell(shown) => shown
      case NumericCell(n) => if n.Whole? then IntToString(n.i) else n.shown
      case BooleanCell(b) => BoolToString(b)
      case FormulaCell(result) =>
        (match result
         case NumberResult(n) => DoubleToString(n)
         case TextResult(s) => s
         case OtherResult(formula) => formula)
      case BlankCell => ""
      case ErrorCell => ""
  }

  /** A cell whose number, if it is a whole one, fits in a Java long. */
  predicate LongSized(cell: Option<Cell>)
  {
    cell.Some? && cell.value.NumericCell? && cell.value.n.Whole? ==> ExcelReader.InLongRange(cell.value.n.i)
  }

  /** ExcelUtil and ExcelReader write such a cell alike: "%.0f" of a whole number gives
      the same digits as Long.toString, and a formula's number goes through
      String.valueOf(double) in both. */
  lemma CellStringAgrees(cell: Option<Cell>)
    requires LongSized(cell)
    ensures CellString(cell) == ExcelReader.ValueText(ExcelReader.GetCellValue(cell))
  {
  }

  /** Beyond the long range they part: "%.0f" writes 2^63 in full, while ExcelReader's
      `(long)` cast has saturated it to 2^63 - 1. */
  lemma CellStringsPartBeyondLong()
    ensures var cell := Some(NumericCell(Whole(ExcelReader.LongMax + 1)));
            CellString(cell) != ExcelReader.ValueText(ExcelReader.GetCellValue(cell))
  {
    var n := ExcelReader.LongMax + 1;
    ParseDigitsOfNatToString(n);
    ParseDigitsOfNatToString(n - 1);
  }

  /** The text of a whole-number cell parses back to the number. */
  lemma WholeNumberReadsBack(i: int)
    requires InIntRange(i)
    ensures ParseInt(CellString(Some(NumericCell(Whole(i))))) == Ok(i)
  {
    ParseIntOfIntToString(i);
  }

  // ---------------------------------------------------------------- column letters

  /** The loop `colIndex = colIndex * 26 + (c - 'A' + 1)` over the upper-cased letters,
      then `colIndex--`. */
  method ColumnIndexOf(colString: string) returns (colIndex: int)
    ensures colIndex == ColumnIndex(colString)
  {
    var upper := ToUpper(colString);
    colIndex := 0;
    for i := 0 to |upper|
      invariant colIndex == ColumnNumber(upper[..i])
    {
      assert upper[..i + 1][..i] == upper[..i];
      colIndex := colIndex * 26 + (upper[i] as int - 'A' as int + 1);
    }
    assert upper[..|upper|] == upper;
    colIndex := colIndex - 1;
    ColumnIndexIgnoresCase(colString);
  }

  // ---------------------------------------------------------------- references

  predicate NotDigit(c: char) { !IsDigit(c) }

  predicate NotLetter(c: char) { !IsLetter(c) }

  /** The characters of s that satisfy keep, in order: replaceAll with a character class
      and an empty replacement deletes the others. */
  function Keep(s: string, keep: char -> bool): (r: string)
    ensures |r| <= |s|
    ensures forall k | 0 <= k < |r| :: keep(r[k])
  {
    if s == [] then []
    else Keep(s[..|s| - 1], keep) + (if keep(s[|s| - 1]) then [s[|s| - 1]] else [])
  }

  lemma {:induction false} KeepAppend(a: string, b: string, keep: char -> bool)
    ensures Keep(a + b, keep) == Keep(a, keep) + Keep(b, keep)
    decreases |b|
  {
    if b != [] {
      var b' := b[..|b| - 1];
      assert (a + b)[..|a + b| - 1] == a + b';
      KeepAppend(a, b', keep);
    } else {
      assert a + b == a;
    }
  }

  lemma {:induction false} KeepEvery(s: string, keep: char -> bool)
    requires forall k | 0 <= k < |s| :: keep(s[k])
    ensures Keep(s, keep) == s
    decreases |s|
  {
    if s != [] {
      KeepEvery(s[..|s| - 1], keep);
    }
  }

  lemma {:induction false} KeepNone(s: string, keep: char -> bool)
    requires forall k | 0 <= k < |s| :: !keep(s[k])
    ensures Keep(s, keep) == []
    decreases |s|
  {
    if s != [] {
      KeepNone(s[..|s| - 1], keep);
    }
  }

  /** replaceAll("[0-9]", ""): the column part of a reference. */
  function ColumnText(ref: string): string
  {
    Keep(ref, NotDigit)
  }

  /** replaceAll("[A-Za-z]", ""): the row part of a reference. */
  function RowText(ref: string): string
  {
    Keep(ref, NotLetter)
  }

  /** The 0-based column of a reference. */
  function ColumnOf(ref: string): int
  {
    ColumnIndex(ColumnText(ref))
  }

  /** Integer.parseInt of the row part, minus one; NumberFormatException otherwise. */
  function RowIndexOf(ref: string): (r: Result<int>)
    ensures r.Ok? <==> ParseInt(RowText(ref)).Ok?
  {
    var n :- ParseInt(RowText(ref));
    Ok(n - 1)
  }

  /** On a reference of letters then digits, the deletions split it exactly. */
  lemma RefParts(s: string)
    requires IsCellRef(s)
    ensures ColumnText(s) == s[..LetterRun(s)] && RowText(s) == s[LetterRun(s)..]
  {
    var n := LetterRun(s);
    var letters, digits := s[..n], s[n..];
    assert s == letters + digits;
    KeepAppend(letters, digits, NotDigit);
    KeepAppend(letters, digits, NotLetter);
    KeepEvery(letters, NotDigit);
    KeepNone(letters, NotLetter);
    KeepNone(digits, NotDigit);
    KeepEvery(digits, NotLetter);
  }

  // ---------------------------------------------------------------- readCellValue

  /** readCellValue: null (None) for a missing sheet, row or cell, else the cell's text;
      a row part that does not parse as an `int` is a NumberFormatException. */
  function CellValue(workbook: Workbook, sheetName: string, cellReference: string): (r: Result<Option<string>>)
    ensures sheetName !in workbook ==> r == Ok(None)
    ensures sheetName in workbook ==> (r.Err? <==> ParseInt(RowText(cellReference)).Err?)
  {
    if sheetName !in workbook then Ok(None)
    else
      var row :- RowIndexOf(cellReference);
      var cell := CellAt(workbook[sheetName], row, ColumnOf(cellReference));
      if cell.None? then Ok(None) else Ok(Some(CellString(cell)))
  }

  /** On a reference of letters then digits, readCellValue reads the cell that
      ExcelReader's CellReference names, None exactly when that cell is missing, and
      writes a cell whose number fits in a long as ExcelReader does. */
  lemma CellValueOfRef(workbook: Workbook, sheetName: string, s: string)
    requires sheetName in workbook && IsCellRef(s) && RefRow(s) < IntMax
    ensures var cell := CellAt(workbook[sheetName], RefRow(s), RefColumn(s));
            CellValue(workbook, sheetName, s) == Ok(if cell.None? then None else Some(CellString(cell)))
    ensures var cell := CellAt(workbook[sheetName], RefRow(s), RefColumn(s));
            LongSized(cell) ==>
              CellValue(workbook, sheetName, s)
              == Ok(if cell.None? then None else Some(ExcelReader.ValueText(ExcelReader.GetCellValue(cell))))
  {
    RefParts(s);
    ParseIntOfDigits(s[LetterRun(s)..]);
    var cell := CellAt(workbook[sheetName], RefRow(s), RefColumn(s));
    if LongSized(cell) {
      CellStringAgrees(cell);
    }
  }

  /** The reference written for a cell reads that cell back. */
  lemma CellValueOfName(workbook: Workbook, sheetName: string, col: nat, row: nat)
    requires sheetName in workbook && row < IntMax
    ensures var cell := CellAt(workbook[sheetName], row, col);
            CellValue(workbook, sheetName, CellName(col, row)) == Ok(if cell.None? then None else Some(CellString(cell)))
  {
    CellNameRoundTrip(col, row);
    CellValueOfRef(workbook, sheetName, CellName(col, row));
  }

  // ---------------------------------------------------------------- rows as records

  /** A key of a row's JSONObject: a header's text, or the single character
      `(char)('A' + col)`, kept as its 16-bit code. */
  datatype Key = Named(name: string) | Letter(code: int)

  /** One row's JSONObject: key to cell text. */
  type Record = map<Key, string>

  /** The cast `(char)('A' + col)` keeps the low 16 bits. */
  function LetterCode(col: int): (code: int)
    ensures 0 <= code < 0x1_0000
    ensures 0 <= 'A' as int + col < 0x1_0000 ==> code == 'A' as int + col
  {
    ('A' as int + col) % 0x1_0000
  }

  /** The header of a column: the header cell's text, or "Column" and the 1-based column
      when the header row has no cell there. */
  function HeaderName(sheet: Sheet, r: int, col: int): string
  {
    var cell := CellAt(sheet, r, col);
    if cell.Some? then CellString(cell) else "Column" + IntToString(col + 1)
  }

  /** The headers of columns c0..c1 of row r. */
  function HeaderNames(sheet: Sheet, r: int, c0: int, c1: int): (h: seq<string>)
    ensures |h| == if c1 < c0 then 0 else c1 - c0 + 1
    ensures forall k | 0 <= k < |h| :: h[k] == HeaderName(sheet, r, c0 + k)
    decreases c1 - c0
  {
    if c1 < c0 then [] else HeaderNames(sheet, r, c0, c1 - 1) + [HeaderName(sheet, r, c1)]
  }

  /** What is read: rows lo..hi and columns c0..c1 (both inclusive), keyed by the
      headers when there are any. */
  datatype Plan = Plan(lo: int, hi: int, c0: int, c1: int, headers: Option<seq<string>>)

  /** The header array has one entry per column. */
  predicate Fits(p: Plan)
  {
    p.headers.Some? ==> |p.headers.value| == p.c1 - p.c0 + 1
  }

  function KeyAt(p: Plan, col: int): Key
    requires Fits(p) && p.c0 <= col <= p.c1
  {
    if p.headers.Some? then Named(p.headers.value[col - p.c0]) else Letter(LetterCode(col))
  }

  /** The JSONObject of row r after columns c0..upTo were put in order: a later column
      overwrites an earlier one under the same key. */
  function RowRecord(sheet: Sheet, r: int, p: Plan, upTo: int): Record
    requires Fits(p) && (upTo < p.c0 || upTo <= p.c1)
    decreases upTo - p.c0
  {
    if upTo < p.c0 then map[]
    else RowRecord(sheet, r, p, upTo - 1)[KeyAt(p, upTo) := CellString(CellAt(sheet, r, upTo))]
  }

  /** Some column c0..upTo of row r has non-empty text (`hasData`). */
  predicate HasText(sheet: Sheet, r: int, c0: int, upTo: int)
  {
    exists col :: c0 <= col <= upTo && CellString(CellAt(sheet, r, col)) != ""
  }

  /** The rows lo..upTo of the plan that are emitted, in order. */
  function DataRows(sheet: Sheet, p: Plan, upTo: int): seq<int>
    decreases upTo - p.lo
  {
    if upTo < p.lo then []
    else DataRows(sheet, p, upTo - 1) + (if HasText(sheet, upTo, p.c0, p.c1) then [upTo] else [])
  }

  /** The records of the given rows, in order. */
  function Emit(sheet: Sheet, rows: seq<int>, p: Plan): seq<Record>
    requires Fits(p)
  {
    if rows == [] then []
    else Emit(sheet, rows[..|rows| - 1], p) + [RowRecord(sheet, rows[|rows| - 1], p, p.c1)]
  }

  /** The emitted rows are exactly the rows of the plan with some non-empty text, in
      increasing order; so there are at most as many as rows in the plan. */
  lemma {:induction false} DataRowsExactly(sheet: Sheet, p: Plan, upTo: int)
    ensures var rows := DataRows(sheet, p, upTo);
            && (forall r :: r in rows <==> p.lo <= r <= upTo && HasText(sheet, r, p.c0, p.c1))
            && (forall j, k | 0 <= j < k < |rows| :: rows[j] < rows[k])
            && |rows| <= if upTo < p.lo then 0 else upTo - p.lo + 1
    decreases upTo - p.lo
  {
    if upTo >= p.lo {
      var prev := DataRows(sheet, p, upTo - 1);
      DataRowsExactly(sheet, p, upTo - 1);
      assert |prev| <= upTo - p.lo;
      if HasText(sheet, upTo, p.c0, p.c1) {
        var rows := prev + [upTo];
        assert DataRows(sheet, p, upTo) == rows;
        assert forall r :: r in rows <==> r in prev || r == upTo;
        forall j | 0 <= j < |prev|
          ensures rows[j] < upTo
        {
          assert rows[j] == prev[j] && prev[j] in prev;
        }
      } else {
        assert DataRows(sheet, p, upTo) == prev;
      }
    }
  }

  /** One record per emitted row, each the record of that row. */
  lemma {:induction false} EmitExactly(sheet: Sheet, rows: seq<int>, p: Plan)
    requires Fits(p)
    ensures |Emit(sheet, rows, p)| == |rows|
    ensures forall k | 0 <= k < |rows| :: Emit(sheet, rows, p)[k] == RowRecord(sheet, rows[k], p, p.c1)
    decreases |rows|
  {
    if rows != [] {
      EmitExactly(sheet, rows[..|rows| - 1], p);
    }
  }

  /** The keys put for columns c0..upTo. */
  function KeysUpTo(p: Plan, upTo: int): set<Key>
    requires Fits(p) && upTo <= p.c1
  {
    set col | p.c0 <= col <= upTo :: KeyAt(p, col)
  }

  /** The record of a row has a key for every column and no other. */
  lemma {:induction false} RecordKeys(sheet: Sheet, r: int, p: Plan, upTo: int)
    requires Fits(p) && upTo <= p.c1
    ensures RowRecord(sheet, r, p, upTo).Keys == KeysUpTo(p, upTo)
    decreases upTo - p.c0
  {
    if upTo >= p.c0 {
      RecordKeys(sheet, r, p, upTo - 1);
      assert KeysUpTo(p, upTo) == KeysUpTo(p, upTo - 1) + {KeyAt(p, upTo)};
    } else {
      assert KeysUpTo(p, upTo) == {};
    }
  }

  /** Two columns less than 65536 apart get different letters. */
  lemma LetterCodesDiffer(a: int, b: int)
    requires 0 < b - a < 0x1_0000
    ensures LetterCode(a) != LetterCode(b)
  {
    var x, y := 'A' as int + a, 'A' as int + b;
    assert x == 0x1_0000 * (x / 0x1_0000) + LetterCode(a);
    assert y == 0x1_0000 * (y / 0x1_0000) + LetterCode(b);
  }

  /** Without headers, each column c0..upTo is under its own letter and holds that
      column's text. */
  lemma {:induction false} LetterRecord(sheet: Sheet, r: int, p: Plan, upTo: int)
    requires p.headers.None? && upTo <= p.c1 && upTo - p.c0 < 0x1_0000
    ensures forall col | p.c0 <= col <= upTo ::
              var key := Letter(LetterCode(col));
              key in RowRecord(sheet, r, p, upTo) && RowRecord(sheet, r, p, upTo)[key] == CellString(CellAt(sheet, r, col))
    decreases upTo - p.c0
  {
    if upTo >= p.c0 {
      LetterRecord(sheet, r, p, upTo - 1);
      forall col | p.c0 <= col < upTo
        ensures LetterCode(col) != LetterCode(upTo)
      {
        LetterCodesDiffer(col, upTo);
      }
    }
  }

  /** With headers, the column at offset k whose header no later column repeats holds
      that column's text under its header. */
  lemma {:induction false} HeaderRecord(sheet: Sheet, r: int, p: Plan, upTo: int)
    requires Fits(p) && p.headers.Some? && upTo <= p.c1
    ensures var h, n := p.headers.value, upTo - p.c0;
            forall k | 0 <= k <= n && (forall j | k < j <= n :: h[j] != h[k]) ::
              Named(h[k]) in RowRecord(sheet, r, p, upTo)
              && RowRecord(sheet, r, p, upTo)[Named(h[k])] == CellString(CellAt(sheet, r, p.c0 + k))
    decreases upTo - p.c0
  {
    if upTo >= p.c0 {
      HeaderRecord(sheet, r, p, upTo - 1);
      var h, n := p.headers.value, upTo - p.c0;
      assert KeyAt(p, upTo) == Named(h[n]);
      forall k | 0 <= k < n && (forall j | k < j <= n :: h[j] != h[k])
        ensures h[n] != h[k]
        ensures forall j | k < j <= n - 1 :: h[j] != h[k]
      {
      }
    }
  }

  // ---------------------------------------------------------------- readRangeToJson

  /** The plan of readRangeToJson: both rows parsed first (NumberFormatException), then
      both columns; with a header, the header row must exist, its array is allocated
      (NegativeArraySizeException when the end column is more than one before the start
      column), and reading starts one row lower. */
  function RangePlan(sheet: Sheet, startCell: string, endCell: string, hasHeader: bool): (r: Result<Plan>)
    ensures r.Ok? ==> Fits(r.value)
    ensures r.Err? <==>
              || RowIndexOf(startCell).Err? || RowIndexOf(endCell).Err?
              || (hasHeader && RowAt(sheet, RowIndexOf(startCell).value).Some?
                  && ColumnOf(endCell) - ColumnOf(startCell) + 1 < 0)
    ensures r.Ok? ==> && r.value.hi == RowIndexOf(endCell).value
                      && r.value.c0 == ColumnOf(startCell) && r.value.c1 == ColumnOf(endCell)
    ensures r.Ok? ==> var top := RowIndexOf(startCell).value;
                      if hasHeader && RowAt(sheet, top).Some?
                      then r.value.lo == top + 1 && r.value.headers == Some(HeaderNames(sheet, top, r.value.c0, r.value.c1))
                      else r.value.lo == top && r.value.headers.None?
  {
    var startRow :- RowIndexOf(startCell);
    var endRow :- RowIndexOf(endCell);
    var c0, c1 := ColumnOf(startCell), ColumnOf(endCell);
    if hasHeader && RowAt(sheet, startRow).Some? then
      if c1 - c0 + 1 < 0 then Err(NegativeArraySize)
      else Ok(Plan(startRow + 1, endRow, c0, c1, Some(HeaderNames(sheet, startRow, c0, c1))))
    else Ok(Plan(startRow, endRow, c0, c1, None))
  }

  /** readRangeToJson: no records for a missing sheet, else the plan's emitted rows. */
  function RangeRecords(workbook: Workbook, sheetName: string, startCell: string, endCell: string, hasHeader: bool): (r: Result<seq<Record>>)
    ensures sheetName !in workbook ==> r == Ok([])
    ensures sheetName in workbook ==> (r.Err? <==> RangePlan(workbook[sheetName], startCell, endCell, hasHeader).Err?)
  {
    if sheetName !in workbook then Ok([])
    else
      var sheet := workbook[sheetName];
      var p :- RangePlan(sheet, startCell, endCell, hasHeader);
      Ok(Emit(sheet, DataRows(sheet, p, p.hi), p))
  }

  /** readRangeToJson emits one record per row between the two references with some
      non-empty text, in row order; with a header row present, that row supplies the
      keys and is never emitted itself. */
  lemma RangeRecordsRows(workbook: Workbook, sheetName: string, startCell: string, endCell: string, hasHeader: bool)
    requires sheetName in workbook && RangeRecords(workbook, sheetName, startCell, endCell, hasHeader).Ok?
    ensures var sheet := workbook[sheetName];
            var p := RangePlan(sheet, startCell, endCell, hasHeader).value;
            var rows := DataRows(sheet, p, p.hi);
            var records := RangeRecords(workbook, sheetName, startCell, endCell, hasHeader).value;
            && |records| == |rows|
            && (forall k | 0 <= k < |rows| :: records[k] == RowRecord(sheet, rows[k], p, p.c1))
            && (forall r :: r in rows <==>
                  RowIndexOf(startCell).value <= r <= RowIndexOf(endCell).value
                  && HasText(sheet, r, ColumnOf(startCell), ColumnOf(endCell))
                  && !(hasHeader && RowAt(sheet, r).Some? && r == RowIndexOf(startCell).value))
  {
    var sheet := workbook[sheetName];
    var p := RangePlan(sheet, startCell, endCell, hasHeader).value;
    DataRowsExactly(sheet, p, p.hi);
    EmitExactly(sheet, DataRows(sheet, p, p.hi), p);
  }

  // ---------------------------------------------------------------- readSheetToJson

  /** The widest row of rows lo..upTo: the largest getLastCellNum, and 0 when no row is
      wider. */
  function MaxCol(sheet: Sheet, lo: int, upTo: int): (m: int)
    ensures m >= 0
    ensures forall r | lo <= r <= upTo && RowAt(sheet, r).Some? :: sheet.rows[r].lastCellNum <= m
    ensures m == 0 || exists r | lo <= r <= upTo && RowAt(sheet, r).Some? :: sheet.rows[r].lastCellNum == m
    decreases upTo - lo
  {
    if upTo < lo then 0
    else
      var m := MaxCol(sheet, lo, upTo - 1);
      var row := RowAt(sheet, upTo);
      if row.Some? && row.value.lastCellNum > m then row.value.lastCellNum else m
  }

  /** The plan of readSheetToJson: rows getFirstRowNum..getLastRowNum, columns
      0..maxCol-1; with a header and a non-empty range whose first row exists, that row
      supplies the keys and reading starts one row lower. */
  function SheetPlan(sheet: Sheet, hasHeader: bool): (p: Plan)
    ensures Fits(p)
  {
    var first, last := sheet.firstRowNum, sheet.lastRowNum;
    var maxCol := MaxCol(sheet, first, last);
    if hasHeader && first <= last && RowAt(sheet, first).Some?
    then Plan(first + 1, last, 0, maxCol - 1, Some(HeaderNames(sheet, first, 0, maxCol - 1)))
    else Plan(first, last, 0, maxCol - 1, None)
  }

  /** readSheetToJson: no records for a missing sheet, else the plan's emitted rows. */
  function SheetRecords(workbook: Workbook, sheetName: string, hasHeader: bool): (records: seq<Record>)
    ensures sheetName !in workbook ==> records == []
  {
    if sheetName !in workbook then []
    else
      var sheet := workbook[sheetName];
      var p := SheetPlan(sheet, hasHeader);
      Emit(sheet, DataRows(sheet, p, p.hi), p)
  }

  /** POI keeps every cell of a row below getLastCellNum. */
  predicate CellsBelowLast(sheet: Sheet)
  {
    forall r, c | r in sheet.rows && c in sheet.rows[r].cells :: c < sheet.rows[r].lastCellNum
  }

  /** readSheetToJson loses no data: every row after the header with a cell of non-empty
      text is emitted, and nothing else. */
  lemma SheetRecordsRows(workbook: Workbook, sheetName: string, hasHeader: bool)
    requires sheetName in workbook && CellsBelowLast(workbook[sheetName])
    ensures var sheet := workbook[sheetName];
            var p := SheetPlan(sheet, hasHeader);
            var rows := DataRows(sheet, p, p.hi);
            && |SheetRecords(workbook, sheetName, hasHeader)| == |rows|
            && (forall r, c | p.lo <= r <= sheet.lastRowNum && CellString(CellAt(sheet, r, c)) != "" :: r in rows)
            && (forall r | r in rows :: p.lo <= r <= sheet.lastRowNum && HasText(sheet, r, 0, p.c1))
  {
    var sheet := workbook[sheetName];
    var p := SheetPlan(sheet, hasHeader);
    DataRowsExactly(sheet, p, p.hi);
    EmitExactly(sheet, DataRows(sheet, p, p.hi), p);
    forall r, c | p.lo <= r <= sheet.lastRowNum && CellString(CellAt(sheet, r, c)) != ""
      ensures HasText(sheet, r, 0, p.c1)
    {
      assert CellAt(sheet, r, c).Some?;
      assert c < sheet.rows[r].lastCellNum <= MaxCol(sheet, sheet.firstRowNum, sheet.lastRowNum);
    }
  }

  // ---------------------------------------------------------------- findDuplicates

  /** One entry of a duplicate group: the 1-based row, the value, and the row's other
      cells keyed by the 16-bit code of their column letter. */
  datatype RowInfo = RowInfo(row: int, value: string, others: map<int, string>)

  /** The other cells of a row: columns 0..upTo-1 except col, where the row has a cell. */
  function OtherCells(row: Row, col: int, upTo: int): map<int, string>
    decreases upTo
  {
    if upTo <= 0 then map[]
    else
      var others, i := OtherCells(row, col, upTo - 1), upTo - 1;
      if i == col || i !in row.cells then others else others[LetterCode(i) := CellString(Some(row.cells[i]))]
  }

  /** Every other cell below getLastCellNum is under its letter with its text, and only
      those. */
  lemma {:induction false} OtherCellsExactly(row: Row, col: int, upTo: int)
    requires upTo <= 0x1_0000 - 'A' as int
    ensures forall code | code in OtherCells(row, col, upTo) :: 'A' as int <= code < 'A' as int + upTo
    ensures var others := OtherCells(row, col, upTo);
            forall i | 0 <= i < upTo ::
              && (LetterCode(i) in others <==> i != col && i in row.cells)
              && (LetterCode(i) in others ==> others[LetterCode(i)] == CellString(Some(row.cells[i])))
    decreases upTo
  {
    if upTo > 0 {
      OtherCellsExactly(row, col, upTo - 1);
      var before, last := OtherCells(row, col, upTo - 1), upTo - 1;
      forall i | 0 <= i < last
        ensures LetterCode(i) != LetterCode(last)
      {
        LetterCodesDiffer(i, last);
      }
      if last != col && last in row.cells {
        assert OtherCells(row, col, upTo) == before[LetterCode(last) := CellString(Some(row.cells[last]))];
      } else {
        assert OtherCells(row, col, upTo) == before;
        assert LetterCode(last) !in before;
      }
    }
  }

  /** The entry for row r. */
  function Info(sheet: Sheet, r: int, col: int, value: string): RowInfo
    requires RowAt(sheet, r).Some?
  {
    RowInfo(r + 1, value, OtherCells(sheet.rows[r], col, sheet.rows[r].lastCellNum))
  }

  /** The text of column col in row r, when the row has a cell there. */
  predicate HoldsValue(sheet: Sheet, r: int, col: int, value: string)
  {
    CellAt(sheet, r, col).Some? && CellString(CellAt(sheet, r, col)) == value
  }

  /** valueMap after rows lo..hi-1: each non-empty value to the entries of its rows. */
  function ValueGroups(sheet: Sheet, col: int, lo: int, hi: int): map<string, seq<RowInfo>>
    decreases hi - lo
  {
    if hi <= lo then map[]
    else
      var groups, r := ValueGroups(sheet, col, lo, hi - 1), hi - 1;
      var cell := CellAt(sheet, r, col);
      if cell.None? || CellString(cell) == "" then groups
      else
        var value := CellString(cell);
        groups[value := (if value in groups then groups[value] else []) + [Info(sheet, r, col, value)]]
  }

  /** The rows lo..hi-1, in order, whose cell in column col has the given text. */
  function RowsWith(sheet: Sheet, col: int, lo: int, hi: int, value: string): (rows: seq<int>)
    ensures forall k | 0 <= k < |rows| :: lo <= rows[k] < hi && HoldsValue(sheet, rows[k], col, value)
    ensures forall r :: r in rows <==> lo <= r < hi && HoldsValue(sheet, r, col, value)
    ensures forall j, k | 0 <= j < k < |rows| :: rows[j] < rows[k]
    decreases hi - lo
  {
    if hi <= lo then []
    else
      var rows := RowsWith(sheet, col, lo, hi - 1, value);
      if HoldsValue(sheet, hi - 1, col, value) then rows + [hi - 1] else rows
  }

  /** A value is grouped exactly when it is non-empty and some row holds it; its group
      lists the entries of exactly those rows, in row order. */
  lemma {:induction false} ValueGroupsExactly(sheet: Sheet, col: int, lo: int, hi: int)
    ensures var groups := ValueGroups(sheet, col, lo, hi);
            forall value ::
              && (value in groups <==> value != "" && RowsWith(sheet, col, lo, hi, value) != [])
              && (value in groups ==>
                    var rows := RowsWith(sheet, col, lo, hi, value);
                    && |groups[value]| == |rows|
                    && forall k | 0 <= k < |rows| :: groups[value][k] == Info(sheet, rows[k], col, value))
    decreases hi - lo
  {
    if hi > lo {
      ValueGroupsExactly(sheet, col, lo, hi - 1);
      var groups := ValueGroups(sheet, col, lo, hi - 1);
      forall value
        ensures var next := ValueGroups(sheet, col, lo, hi);
                && (value in next <==> value != "" && RowsWith(sheet, col, lo, hi, value) != [])
                && (value in next ==>
                      var rows := RowsWith(sheet, col, lo, hi, value);
                      && |next[value]| == |rows|
                      && forall k | 0 <= k < |rows| :: next[value][k] == Info(sheet, rows[k], col, value))
      {
        var before := RowsWith(sheet, col, lo, hi - 1, value);
        if value != "" && HoldsValue(sheet, hi - 1, col, value) {
          assert RowsWith(sheet, col, lo, hi, value) == before + [hi - 1];
        } else if value != "" {
          assert RowsWith(sheet, col, lo, hi, value) == before;
        }
      }
    }
  }

  /** The groups with more than one row (the JSONArray of duplicates; its order follows
      HashMap iteration and is not modelled). */
  function Duplicates(groups: map<string, seq<RowInfo>>): (dups: map<string, seq<RowInfo>>)
    ensures forall value :: value in dups <==> value in groups && |groups[value]| > 1
    ensures forall value | value in dups :: dups[value] == groups[value]
  {
    map value | value in groups && |groups[value]| > 1 :: groups[value]
  }

  /** findDuplicates: nothing for a missing sheet; else the groups of rows startRow-1 up
      to endRow-1 (0-based), that is 1-based rows startRow..endRow, of the column named
      by columnReference. */
  function DuplicatesIn(workbook: Workbook, sheetName: string, columnReference: string, startRow: int, endRow: int): map<string, seq<RowInfo>>
  {
    if sheetName !in workbook then map[]
    else Duplicates(ValueGroups(workbook[sheetName], ColumnIndex(columnReference), startRow - 1, endRow))
  }

  /** A value is reported exactly when it is non-empty and more than one row of the
      1-based range startRow..endRow holds it; the group lists those rows in order. */
  lemma DuplicatesExactly(workbook: Workbook, sheetName: string, columnReference: string, startRow: int, endRow: int)
    requires sheetName in workbook
    ensures var sheet, col := workbook[sheetName], ColumnIndex(columnReference);
            var dups := DuplicatesIn(workbook, sheetName, columnReference, startRow, endRow);
            forall value ::
              && (value in dups <==> value != "" && |RowsWith(sheet, col, startRow - 1, endRow, value)| > 1)
              && (value in dups ==>
                    var rows := RowsWith(sheet, col, startRow - 1, endRow, value);
                    |dups[value]| == |rows| && forall k | 0 <= k < |rows| :: dups[value][k].row == rows[k] + 1 && dups[value][k].value == value)
  {
    ValueGroupsExactly(workbook[sheetName], ColumnIndex(columnReference), startRow - 1, endRow);
  }

  // ---------------------------------------------------------------- countItems

  /** A row counts when its cell in column col exists, has non-empty text, and that
      text equals the condition if there is one. */
  predicate Counted(row: Row, col: int, condition: Option<string>)
  {
    && col >= 0 && col in row.cells
    && CellString(Some(row.cells[col])) != ""
    && (condition.None? || CellString(Some(row.cells[col])) == condition.value)
  }

  /** The rows of the sheet that count. */
  function CountedRow(sheet: Sheet, col: int, condition: Option<string>): nat -> bool
  {
    r => r in sheet.rows && Counted(sheet.rows[r], col, condition)
  }

  /** The members of `among` that keep accepts. */
  function Filtered(among: set<nat>, keep: nat -> bool): set<nat>
  {
    set r | r in among && keep(r)
  }

  /** countItems: 0 for a missing sheet; else the number of rows of the sheet that count. */
  function ItemCount(workbook: Workbook, sheetName: string, columnReference: string, condition: Option<string>): nat
  {
    if sheetName !in workbook then 0
    else
      var sheet := workbook[sheetName];
      |Filtered(sheet.rows.Keys, CountedRow(sheet, ColumnIndex(columnReference), condition))|
  }

  /** A filter that accepts less keeps no more. */
  lemma FilteredNarrower(among: set<nat>, narrow: nat -> bool, wide: nat -> bool)
    requires forall r | r in among :: narrow(r) ==> wide(r)
    ensures |Filtered(among, narrow)| <= |Filtered(among, wide)|
  {
    var n, w := Filtered(among, narrow), Filtered(among, wide);
    assert w == n + (w - n);
  }

  /** A condition only narrows the count, and the empty condition counts nothing. */
  lemma CountWithCondition(workbook: Workbook, sheetName: string, columnReference: string, value: string)
    ensures ItemCount(workbook, sheetName, columnReference, Some(value)) <= ItemCount(workbook, sheetName, columnReference, None)
    ensures ItemCount(workbook, sheetName, columnReference, Some("")) == 0
  {
    if sheetName in workbook {
      var sheet, col := workbook[sheetName], ColumnIndex(columnReference);
      FilteredNarrower(sheet.rows.Keys, CountedRow(sheet, col, Some(value)), CountedRow(sheet, col, None));
      assert Filtered(sheet.rows.Keys, CountedRow(sheet, col, Some(""))) == {};
    }
  }

  /** The row numbers below hi. */
  function Below(hi: int): (b: set<nat>)
    ensures forall r: nat :: r in b <==> r < hi
    decreases hi
  {
    if hi <= 0 then {} else Below(hi - 1) + {hi - 1}
  }

  /** Adding a member to `among` adds it to the filtered set exactly when accepted. */
  lemma FilteredAdd(among: set<nat>, r: nat, keep: nat -> bool)
    requires r !in among
    ensures |Filtered(among + {r}, keep)| == |Filtered(among, keep)| + (if keep(r) then 1 else 0)
  {
    var before, after := Filtered(among, keep), Filtered(among + {r}, keep);
    if keep(r) {
      assert after == before + {r};
    } else {
      assert after == before;
    }
  }

  /** Filtering the rows below hi+1 keeps those below hi, and row hi if accepted. */
  lemma FilteredStep(hi: nat, keep: nat -> bool)
    ensures |Filtered(Below(hi + 1), keep)| == |Filtered(Below(hi), keep)| + (if keep(hi) then 1 else 0)
  {
    assert Below(hi + 1) == Below(hi) + {hi};
    FilteredAdd(Below(hi), hi, keep);
  }

  /** For a non-empty value, a row counts under it exactly when its cell holds it. */
  lemma CountedIffHolds(sheet: Sheet, r: nat, col: int, value: string)
    requires value != ""
    ensures CountedRow(sheet, col, Some(value))(r) <==> HoldsValue(sheet, r, col, value)
  {
  }

  /** The rows below hi that count under a non-empty value are as many as the rows
      findDuplicates' scan of rows 0..hi-1 groups under it. */
  lemma {:induction false} CountMatchesRows(sheet: Sheet, col: int, hi: nat, value: string)
    requires value != ""
    ensures |Filtered(Below(hi), CountedRow(sheet, col, Some(value)))| == |RowsWith(sheet, col, 0, hi, value)|
    decreases hi
  {
    if hi > 0 {
      CountMatchesRows(sheet, col, hi - 1, value);
      FilteredStep(hi - 1, CountedRow(sheet, col, Some(value)));
      CountedIffHolds(sheet, hi - 1, col, value);
    } else {
      assert Filtered(Below(hi), CountedRow(sheet, col, Some(value))) == {};
    }
  }

  /** When every row of the sheet lies below hi, countItems with a value as condition
      is the number of rows findDuplicates would group under that value. */
  lemma CountIsGroupSize(workbook: Workbook, sheetName: string, columnReference: string, hi: nat, value: string)
    requires sheetName in workbook && value != ""
    requires forall r | r in workbook[sheetName].rows :: r < hi
    ensures ItemCount(workbook, sheetName, columnReference, Some(value))
            == |RowsWith(workbook[sheetName], ColumnIndex(columnReference), 0, hi, value)|
  {
    var sheet, col := workbook[sheetName], ColumnIndex(columnReference);
    CountMatchesRows(sheet, col, hi, value);
    var keep := CountedRow(sheet, col, Some(value));
    assert Filtered(sheet.rows.Keys, keep) == Filtered(Below(hi), keep);
  }

  // ---------------------------------------------------------------- the loops

  /** Row.getCell(c): null for a negative or missing column. */
  function CellOf(row: Row, c: int): (cell: Option<Cell>)
    ensures cell.Some? <==> c >= 0 && c in row.cells
  {
    if c >= 0 && c in row.cells then Some(row.cells[c]) else None
  }

  /** The header array: one entry per column c0..c1. */
  method ReadHeaders(sheet: Sheet, r: int, c0: int, c1: int) returns (headers: array<string>)
    requires c0 <= c1 + 1
    ensures fresh(headers) && headers[..] == HeaderNames(sheet, r, c0, c1)
  {
    headers := new string[c1 - c0 + 1];
    for col := c0 to c1 + 1
      invariant forall k | 0 <= k < col - c0 :: headers[k] == HeaderName(sheet, r, c0 + k)
    {
      var cell := CellAt(sheet, r, col);
      headers[col - c0] := if cell.Some? then CellString(cell) else "Column" + IntToString(col + 1);
    }
  }

  /** The inner loop over the columns of one row: the JSONObject and `hasData`. */
  method ReadRow(sheet: Sheet, r: int, p: Plan) returns (record: Record, hasData: bool)
    requires Fits(p)
    ensures record == RowRecord(sheet, r, p, p.c1)
    ensures hasData == HasText(sheet, r, p.c0, p.c1)
  {
    record, hasData := map[], false;
    var col := p.c0;
    while col <= p.c1
      invariant p.c0 <= col && (col <= p.c1 + 1 || col == p.c0)
      invariant record == RowRecord(sheet, r, p, col - 1)
      invariant hasData <==> HasText(sheet, r, p.c0, col - 1)
      decreases p.c1 - col
    {
      var value := CellString(CellAt(sheet, r, col));
      if value != "" {
        hasData := true;
      }
      record := record[KeyAt(p, col) := value];
      col := col + 1;
    }
  }

  /** The outer loop: rows lo..hi, a missing row skipped, a row kept when it has data. */
  method EmitRows(sheet: Sheet, p: Plan) returns (records: seq<Record>)
    requires Fits(p)
    ensures records == Emit(sheet, DataRows(sheet, p, p.hi), p)
  {
    records := [];
    var rowIndex := p.lo;
    while rowIndex <= p.hi
      invariant p.lo <= rowIndex && (rowIndex <= p.hi + 1 || rowIndex == p.lo)
      invariant records == Emit(sheet, DataRows(sheet, p, rowIndex - 1), p)
      decreases p.hi - rowIndex
    {
      if RowAt(sheet, rowIndex).Some? {
        var record, hasData := ReadRow(sheet, rowIndex, p);
        if hasData {
          var rows := DataRows(sheet, p, rowIndex - 1);
          assert DataRows(sheet, p, rowIndex) == rows + [rowIndex];
          assert (rows + [rowIndex])[..|rows|] == rows;
          records := records + [record];
        } else {
          assert DataRows(sheet, p, rowIndex) == DataRows(sheet, p, rowIndex - 1);
        }
      } else {
        assert !HasText(sheet, rowIndex, p.c0, p.c1);
        assert DataRows(sheet, p, rowIndex) == DataRows(sheet, p, rowIndex - 1);
      }
      rowIndex := rowIndex + 1;
    }
  }

  /** The loop finding maxCol over rows getFirstRowNum..getLastRowNum. */
  method MaxColumn(sheet: Sheet) returns (maxCol: int)
    ensures maxCol == MaxCol(sheet, sheet.firstRowNum, sheet.lastRowNum)
  {
    maxCol := 0;
    var i := sheet.firstRowNum;
    while i <= sheet.lastRowNum
      invariant sheet.firstRowNum <= i && (i <= sheet.lastRowNum + 1 || i == sheet.firstRowNum)
      invariant maxCol == MaxCol(sheet, sheet.firstRowNum, i - 1)
      decreases sheet.lastRowNum - i
    {
      var row := RowAt(sheet, i);
      if row.Some? && row.value.lastCellNum > maxCol {
        maxCol := row.value.lastCellNum;
      }
      i := i + 1;
    }
  }

  /** The loop over the other cells of a duplicate's row. */
  method RowOthers(row: Row, col: int) returns (others: map<int, string>)
    ensures others == OtherCells(row, col, row.lastCellNum)
  {
    others := map[];
    var i := 0;
    while i < row.lastCellNum
      invariant 0 <= i && (i <= row.lastCellNum || i == 0)
      invariant others == OtherCells(row, col, i)
      decreases row.lastCellNum - i
    {
      var other := CellOf(row, i);
      if i != col && other.Some? {
        others := others[LetterCode(i) := CellString(other)];
      }
      i := i + 1;
    }
  }

  // ---------------------------------------------------------------- the utility object

  /** An ExcelUtil over an open workbook; the workbook is set once and only read
      afterwards (opening and closing the file are not modelled). */
  class ExcelUtil {
    const workbook: Workbook

    constructor (workbook: Workbook)
      ensures this.workbook == workbook
    {
      this.workbook := workbook;
    }

    /** readCellValue. */
    method ReadCellValue(sheetName: string, cellReference: string) returns (r: Result<Option<string>>)
      ensures r == CellValue(workbook, sheetName, cellReference)
    {
      if sheetName !in workbook {
        return Ok(None);
      }
      var sheet := workbook[sheetName];
      var colString, rowString := ColumnText(cellReference), RowText(cellReference);
      var colIndex := ColumnIndexOf(colString);
      var parsed := ParseInt(rowString);
      if parsed.Err? {
        return Err(parsed.failure);
      }
      var rowIndex := parsed.value - 1;
      var row := RowAt(sheet, rowIndex);
      if row.None? {
        return Ok(None);
      }
      var cell := CellOf(row.value, colIndex);
      if cell.None? {
        return Ok(None);
      }
      return Ok(Some(CellString(cell)));
    }

    /** readRangeToJson. */
    method ReadRangeToJson(sheetName: string, startCell: string, endCell: string, hasHeader: bool)
      returns (r: Result<seq<Record>>)
      ensures r == RangeRecords(workbook, sheetName, startCell, endCell, hasHeader)
    {
      if sheetName !in workbook {
        return Ok([]);
      }
      var sheet := workbook[sheetName];
      var start := RowIndexOf(startCell);
      if start.Err? {
        return Err(start.failure);
      }
      var end := RowIndexOf(endCell);
      if end.Err? {
        return Err(end.failure);
      }
      var startRow, endRow := start.value, end.value;
      var startCol := ColumnIndexOf(ColumnText(startCell));
      var endCol := ColumnIndexOf(ColumnText(endCell));
      var headers: Option<seq<string>> := None;
      if hasHeader && RowAt(sheet, startRow).Some? {
        if endCol - startCol + 1 < 0 {
          return Err(NegativeArraySize);
        }
        var names := ReadHeaders(sheet, startRow, startCol, endCol);
        headers := Some(names[..]);
        startRow := startRow + 1;
      }
      var records := EmitRows(sheet, Plan(startRow, endRow, startCol, endCol, headers));
      return Ok(records);
    }

    /** readSheetToJson. */
    method ReadSheetToJson(sheetName: string, hasHeader: bool) returns (records: seq<Record>)
      ensures records == SheetRecords(workbook, sheetName, hasHeader)
    {
      if sheetName !in workbook {
        return [];
      }
      var sheet := workbook[sheetName];
      var firstRow, lastRow := sheet.firstRowNum, sheet.lastRowNum;
      var maxCol := MaxColumn(sheet);
      var headers: Option<seq<string>> := None;
      if hasHeader && firstRow <= lastRow && RowAt(sheet, firstRow).Some? {
        var names := ReadHeaders(sheet, firstRow, 0, maxCol - 1);
        headers := Some(names[..]);
        firstRow := firstRow + 1;
      }
      var p := Plan(firstRow, lastRow, 0, maxCol - 1, headers);
      assert p == SheetPlan(sheet, hasHeader);
      records := EmitRows(sheet, p);
    }

    /** findDuplicates. */
    method FindDuplicates(sheetName: string, columnReference: string, startRow: int, endRow: int)
      returns (duplicates: map<string, seq<RowInfo>>)
      ensures duplicates == DuplicatesIn(workbook, sheetName, columnReference, startRow, endRow)
    {
      if sheetName !in workbook {
        return map[];
      }
      var sheet := workbook[sheetName];
      var colIndex := ColumnIndexOf(columnReference);
      var valueMap: map<string, seq<RowInfo>> := map[];
      var rowIndex := startRow - 1;
      while rowIndex < endRow
        invariant startRow - 1 <= rowIndex && (rowIndex <= endRow || rowIndex == startRow - 1)
        invariant valueMap == ValueGroups(sheet, colIndex, startRow - 1, rowIndex)
        decreases endRow - rowIndex
      {
        var row := RowAt(sheet, rowIndex);
        if row.Some? {
          var cell := CellOf(row.value, colIndex);
          var value := CellString(cell);
          if cell.Some? && value != "" {
            if value !in valueMap {
              valueMap := valueMap[value := []];
            }
            var others := RowOthers(row.value, colIndex);
            valueMap := valueMap[value := valueMap[value] + [RowInfo(rowIndex + 1, value, others)]];
          }
        }
        rowIndex := rowIndex + 1;
      }
      duplicates := map value | value in valueMap && |valueMap[value]| > 1 :: valueMap[value];
    }

    /** countItems; a null condition is None. */
    method CountItems(sheetName: string, columnReference: string, condition: Option<string>) returns (count: nat)
      ensures count == ItemCount(workbook, sheetName, columnReference, condition)
    {
      if sheetName !in workbook {
        return 0;
      }
      var sheet := workbook[sheetName];
      var colIndex := ColumnIndexOf(columnReference);
      ghost var keep := CountedRow(sheet, colIndex, condition);
      count := 0;
      var remaining := sheet.rows.Keys;
      while remaining != {}
        invariant remaining <= sheet.rows.Keys
        invariant count == |Filtered(sheet.rows.Keys - remaining, keep)|
        decreases |remaining|
      {
        var r :| r in remaining;
        var cell := CellOf(sheet.rows[r], colIndex);
        if cell.Some? {
          var value := CellString(cell);
          if value != "" && (condition.None? || value == condition.value) {
            count := count + 1;
          }
        }
        FilteredAdd(sheet.rows.Keys - remaining, r, keep);
        assert sheet.rows.Keys - (remaining - {r}) == (sheet.rows.Keys - remaining) + {r};
        remaining := remaining - {r};
      }
      assert sheet.rows.Keys - remaining == sheet.rows.Keys;
    }
  }
}
