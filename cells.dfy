/** The spreadsheet as the interpreter sees it through Apache POI: a workbook of named
    sheets, sheets of numbered rows, rows of numbered cells, each cell one of POI's
    cell types. An absent row or cell is POI's `null`. Also the A1-style reference
    syntax and the base-26 column letters. */
module Cells {
  import opened Outcomes
  import opened Strings

  /** A numeric cell value. Whole numbers are kept exactly; a number with a fractional
      part is kept as the text Double.toString gives for it. */
  datatype Number = Whole(i: int) | Fractional(shown: string)

  /** What a formula cell yields: its cached number, else its cached string, else
      (for a boolean or error result) the formula text itself. */
  datatype FormulaResult = NumberResult(n: Number) | TextResult(s: string) | OtherResult(formula: string)

  /** POI's cell types. A date is a numeric cell with a date format; `shown` is the
      text java.util.Date.toString gives for it. */
  datatype Cell =
    | BlankCell
    | StringCell(s: string)
    | NumericCell(n: Number)
    | DateCell(shown: string)
    | BooleanCell(b: bool)
    | FormulaCell(result: FormulaResult)
    | ErrorCell

  /** `lastCellNum` is POI's Row.getLastCellNum (one past the last cell, -1 when empty). */
  datatype Row = Row(lastCellNum: int, cells: map<nat, Cell>)

  datatype Sheet = Sheet(firstRowNum: int, lastRowNum: int, rows: map<nat, Row>)

  /** Workbook.getSheet(name): null when no sheet has that name. */
  type Workbook = map<string, Sheet>

  /** Sheet.getRow(r): null for a negative or missing row. */
  function RowAt(sheet: Sheet, r: int): (row: Option<Row>)
    ensures row.Some? <==> r >= 0 && r in sheet.rows
    ensures row.Some? ==> row.value == sheet.rows[r]
  {
    if r >= 0 && r in sheet.rows then Some(sheet.rows[r]) else None
  }

  /** Row.getCell(c) after Sheet.getRow(r): null when either is missing. */
  function CellAt(sheet: Sheet, r: int, c: int): (cell: Option<Cell>)
    ensures cell.Some? <==> RowAt(sheet, r).Some? && c >= 0 && c in RowAt(sheet, r).value.cells
    ensures cell.Some? ==> cell.value == sheet.rows[r].cells[c]
  {
    match RowAt(sheet, r)
    case None => None
    case Some(row) => if c >= 0 && c in row.cells then Some(row.cells[c]) else None
  }

  // ---------------------------------------------------------------- rendering

  /** The digits of a number without its trailing zeros (at least one digit is kept). */
  function StripTrailingZeros(d: string): (m: string)
    requires |d| >= 1
    ensures 1 <= |m| <= |d| && m == d[..|m|]
    ensures |m| > 1 ==> m[|m| - 1] != '0'
    ensures forall k | |m| <= k < |d| :: d[k] == '0'
  {
    if |d| > 1 && d[|d| - 1] == '0' then StripTrailingZeros(d[..|d| - 1]) else d
  }

  /** Double.toString: a whole number below ten million in magnitude is written with a
      ".0" suffix; a larger one in Java's computerized scientific notation, one digit
      before the point and the exponent after an "E" (12345678 is "1.2345678E7"). */
  function DoubleToString(n: Number): (s: string)
    ensures n.Whole? && -10_000_000 < n.i < 10_000_000 ==> s == IntToString(n.i) + ".0"
    ensures n.Whole? && !(-10_000_000 < n.i < 10_000_000) ==> 'E' in s
    ensures n.Fractional? ==> s == n.shown
  {
    match n
    case Whole(i) =>
      if -10_000_000 < i < 10_000_000 then IntToString(i) + ".0"
      else
        var d := NatToString(if i < 0 then -i else i);
        var m := StripTrailingZeros(d);
        var e := "E" + NatToString(|d| - 1);
        (if i < 0 then "-" else "") + [m[0], '.'] + (if |m| == 1 then "0" else m[1..]) + e
    case Fractional(shown) => shown
  }

  /** String.valueOf(boolean). */
  function BoolToString(b: bool): string
  {
    if b then "true" else "false"
  }

  // ---------------------------------------------------------------- column letters

  /** The value of one column letter, as `c - 'A' + 1` after toUpperCase. Any character
      is accepted here, as in the Java arithmetic; letters give 1..26. */
  function LetterValue(c: char): (v: int)
    ensures IsLetter(c) ==> 1 <= v <= 26
  {
    Upper(c) as int - 'A' as int + 1
  }

  /** The bijective base-26 number of a column string, folded from the left:
      each step multiplies by 26 and adds the next letter's value. */
  function ColumnNumber(s: string): (n: int)
    ensures AllLetters(s) ==> n >= 0
    ensures AllLetters(s) && s != [] ==> n >= 1
  {
    if s == [] then 0 else ColumnNumber(s[..|s| - 1]) * 26 + LetterValue(s[|s| - 1])
  }

  /** The 0-based column index of column letters: A is 0, Z is 25, AA is 26. */
  function ColumnIndex(letters: string): int
  {
    ColumnNumber(letters) - 1
  }

  /** CellReference.convertNumToColString: the column letters of a 0-based index. */
  function ColString(n: nat): (s: string)
    ensures |s| >= 1
    ensures forall k | 0 <= k < |s| :: 'A' <= s[k] <= 'Z'
  {
    if n < 26 then [('A' as int + n) as char]
    else ColString(n / 26 - 1) + [('A' as int + n % 26) as char]
  }

  lemma ColumnExamples()
    ensures ColumnIndex("A") == 0 && ColumnIndex("Z") == 25 && ColumnIndex("AA") == 26
    ensures ColumnIndex("a") == 0 && ColumnIndex("aa") == 26 && ColumnIndex("AZ") == 51
  {
    assert "AA"[..1] == "A";
    assert "aa"[..1] == "a";
    assert "AZ"[..1] == "A";
  }

  /** Reading back the letters of any column index gives that index. */
  lemma {:induction false} ColumnIndexOfColString(n: nat)
    ensures ColumnIndex(ColString(n)) == n
    decreases n
  {
    var s := ColString(n);
    var last := ('A' as int + n % 26) as char;
    assert LetterValue(last) == n % 26 + 1;
    if n >= 26 {
      ColumnIndexOfColString(n / 26 - 1);
      assert s[..|s| - 1] == ColString(n / 26 - 1) && s[|s| - 1] == last;
      assert ColumnNumber(s) == (n / 26) * 26 + n % 26 + 1;
    } else {
      assert s[..|s| - 1] == [] && s[|s| - 1] == last;
      assert ColumnNumber(s) == ColumnNumber([]) * 26 + LetterValue(last);
    }
  }

  /** Writing the index of upper-case column letters gives the same letters back. */
  lemma {:induction false} ColStringOfColumnIndex(s: string)
    requires s != [] && forall k | 0 <= k < |s| :: 'A' <= s[k] <= 'Z'
    ensures ColumnIndex(s) >= 0 && ColString(ColumnIndex(s)) == s
    decreases |s|
  {
    var p := s[..|s| - 1];
    var d := LetterValue(s[|s| - 1]);
    assert 1 <= d <= 26;
    assert AllLetters(s);
    if p != [] {
      ColStringOfColumnIndex(p);
      assert AllLetters(p);
      var v := ColumnNumber(p);
      var n := v * 26 + d - 1;
      assert n / 26 == v && n % 26 == d - 1;
      assert ColumnIndex(s) == n;
      assert ('A' as int + n % 26) as char == s[|s| - 1];
      assert ColString(n) == ColString(v - 1) + [s[|s| - 1]];
      assert s == p + [s[|s| - 1]];
    } else {
      assert ColumnNumber(s) == ColumnNumber(p) * 26 + d;
      assert ('A' as int + (d - 1)) as char == s[0];
    }
  }

  /** Letters name a column regardless of case. */
  lemma {:induction false} ColumnIndexIgnoresCase(s: string)
    ensures ColumnIndex(ToUpper(s)) == ColumnIndex(s)
    decreases |s|
  {
    if s != [] {
      var u := ToUpper(s);
      assert u[..|u| - 1] == ToUpper(s[..|s| - 1]);
      ColumnIndexIgnoresCase(s[..|s| - 1]);
    }
  }

  // ---------------------------------------------------------------- cell references

  /** The number of leading ASCII letters. */
  function LetterRun(s: string): (n: nat)
    ensures n <= |s|
    ensures forall k | 0 <= k < n :: IsLetter(s[k])
    ensures n < |s| ==> !IsLetter(s[n])
  {
    if s != [] && IsLetter(s[0]) then 1 + LetterRun(s[1..]) else 0
  }

  /** A full match of `[A-Za-z]+[0-9]+`. */
  predicate IsCellRef(s: string)
  {
    0 < LetterRun(s) < |s| && AllDigits(s[LetterRun(s)..])
  }

  /** The column of a matching reference (group 1 of the pattern). */
  function RefColumn(s: string): (c: int)
    requires IsCellRef(s)
    ensures c >= 0
  {
    assert AllLetters(s[..LetterRun(s)]);
    ColumnIndex(s[..LetterRun(s)])
  }

  /** The 0-based row of a matching reference: group 2 parsed, minus one
      (so "A0" names row -1, which no sheet has). */
  function RefRow(s: string): (r: int)
    requires IsCellRef(s)
    ensures r >= -1
  {
    ParseDigits(s[LetterRun(s)..]) - 1
  }

  /** The reference written for a column and a 0-based row: letters then 1-based row. */
  function CellName(col: nat, row: nat): string
  {
    ColString(col) + NatToString(row + 1)
  }

  /** A written reference matches the pattern and reads back as its column and row. */
  lemma CellNameRoundTrip(col: nat, row: nat)
    ensures IsCellRef(CellName(col, row))
    ensures RefColumn(CellName(col, row)) == col && RefRow(CellName(col, row)) == row
  {
    var letters, digits := ColString(col), NatToString(row + 1);
    var s := letters + digits;
    LetterRunOfConcat(letters, digits);
    assert s[..|letters|] == letters && s[|letters|..] == digits;
    ColumnIndexOfColString(col);
    ParseDigitsOfNatToString(row + 1);
  }

  lemma {:induction false} LetterRunOfConcat(letters: string, digits: string)
    requires AllLetters(letters) && digits != [] && AllDigits(digits)
    ensures LetterRun(letters + digits) == |letters|
    decreases |letters|
  {
    var s := letters + digits;
    if letters != [] {
      assert s[1..] == letters[1..] + digits;
      LetterRunOfConcat(letters[1..], digits);
    } else {
      assert s[0] == digits[0];
    }
  }
}
