/** ExcelReader's row reads: the first-match search of findRowByConditionAndReadColumns
    with its `?` column templates, extractColumnRef and extractFirstPart, and the block
    reads of readRowsAndColumns and readRowsAndColumnsWithMapping. */
module RowReads {
  import opened Outcomes
  import opened Strings
  import opened Cells
  import opened ExcelReader
  import opened Tokenizer
  import opened ExtractParams

  // ---------------------------------------------------------------- search conditions

  /** The four search conditions a ROWBY directive may name, in any letter case. */
  datatype Condition = Equal | StartWith | EndWith | Content

  const BadCondition := "เงื่อนไขไม่ถูกต้อง: "

  /** `switch (searchCondition.toUpperCase())`: the condition named, or none. */
  function ConditionOf(searchCondition: string): Option<Condition>
  {
    var u := ToUpper(searchCondition);
    if u == "EQUAL" then Some(Equal)
    else if u == "STARTWITH" then Some(StartWith)
    else if u == "ENDWITH" then Some(EndWith)
    else if u == "CONTENT" then Some(Content)
    else None
  }

  /** Whether a cell's text meets the condition for the searched value. */
  predicate Satisfies(c: Condition, text: string, value: string)
  {
    match c
    case Equal => text == value
    case StartWith => StartsWith(text, value)
    case EndWith => EndsWith(text, value)
    case Content => Contains(text, value)
  }

  /** The text a searched cell is compared by: its value's toString, trimmed. */
  function SearchText(cell: Option<Cell>): string
  {
    Trim(ValueText(GetCellValue(cell)))
  }

  /** The search loop moves past row k: the searched cell is empty, or the condition
      is a known one and the cell's text does not meet it. */
  predicate Passes(sheet: Sheet, col: nat, cond: string, value: string, k: int)
  {
    IsEmpty(CellAt(sheet, k, col))
    || (ConditionOf(cond).Some? && !Satisfies(ConditionOf(cond).value, SearchText(CellAt(sheet, k, col)), value))
  }

  /** The search from row `from` to the last row: rows whose searched cell is empty
      are passed over; the first other row is the match, or is passed over when it
      does not meet the condition, or throws when the condition is none of the four. */
  function FirstMatch(sheet: Sheet, col: nat, cond: string, value: string, from: int): (r: Result<Option<int>>)
    ensures r.Ok? && r.value.Some? ==> from <= r.value.value <= sheet.lastRowNum
    decreases sheet.lastRowNum + 1 - from
  {
    if from > sheet.lastRowNum then Ok(None)
    else if IsEmpty(CellAt(sheet, from, col)) then FirstMatch(sheet, col, cond, value, from + 1)
    else
      match ConditionOf(cond)
      case None => Err(IllegalArgument(BadCondition + cond))
      case Some(c) =>
        if Satisfies(c, SearchText(CellAt(sheet, from, col)), value) then Ok(Some(from))
        else FirstMatch(sheet, col, cond, value, from + 1)
  }

  /** The match is a row holding data that meets the (known) condition, and the loop
      moved past every row before it. */
  lemma {:induction false} FirstMatchFound(sheet: Sheet, col: nat, cond: string, value: string, from: int, r: int)
    requires FirstMatch(sheet, col, cond, value, from) == Ok(Some(r))
    ensures ConditionOf(cond).Some?
    ensures !IsEmpty(CellAt(sheet, r, col)) && Satisfies(ConditionOf(cond).value, SearchText(CellAt(sheet, r, col)), value)
    ensures forall k | from <= k < r :: Passes(sheet, col, cond, value, k)
    decreases sheet.lastRowNum + 1 - from
  {
    if from <= sheet.lastRowNum {
      if IsEmpty(CellAt(sheet, from, col)) {
        FirstMatchFound(sheet, col, cond, value, from + 1, r);
      } else if r != from {
        FirstMatchFound(sheet, col, cond, value, from + 1, r);
      }
    }
  }

  /** No row matches exactly when the loop moves past every row. */
  lemma {:induction false} FirstMatchNone(sheet: Sheet, col: nat, cond: string, value: string, from: int)
    ensures FirstMatch(sheet, col, cond, value, from) == Ok(None)
        <==> forall k | from <= k <= sheet.lastRowNum :: Passes(sheet, col, cond, value, k)
    decreases sheet.lastRowNum + 1 - from
  {
    if from <= sheet.lastRowNum {
      FirstMatchNone(sheet, col, cond, value, from + 1);
      assert Passes(sheet, col, cond, value, from) ==>
        FirstMatch(sheet, col, cond, value, from) == FirstMatch(sheet, col, cond, value, from + 1);
      assert !Passes(sheet, col, cond, value, from) ==> FirstMatch(sheet, col, cond, value, from) != Ok(None);
    }
  }

  /** The search throws exactly when the condition is none of the four and some row
      holds data in the searched column: an unknown condition goes unnoticed on a
      column with no data. */
  lemma {:induction false} FirstMatchErr(sheet: Sheet, col: nat, cond: string, value: string, from: int)
    ensures FirstMatch(sheet, col, cond, value, from).Err?
        <==> ConditionOf(cond).None? && exists k | from <= k <= sheet.lastRowNum :: !IsEmpty(CellAt(sheet, k, col))
    ensures FirstMatch(sheet, col, cond, value, from).Err? ==>
      FirstMatch(sheet, col, cond, value, from).failure == IllegalArgument(BadCondition + cond)
    decreases sheet.lastRowNum + 1 - from
  {
    if from <= sheet.lastRowNum {
      FirstMatchErr(sheet, col, cond, value, from + 1);
    }
  }

  /** The search loop of findRowByConditionAndReadColumns, from row 0 to the last row,
      stopping at the first match. */
  method SearchRows(sheet: Sheet, col: nat, cond: string, value: string) returns (r: Result<Option<int>>)
    ensures r == FirstMatch(sheet, col, cond, value, 0)
  {
    var rowIdx := 0;
    while rowIdx <= sheet.lastRowNum
      invariant FirstMatch(sheet, col, cond, value, rowIdx) == FirstMatch(sheet, col, cond, value, 0)
      decreases sheet.lastRowNum + 1 - rowIdx
    {
      var cell := CellAt(sheet, rowIdx, col);
      if !IsEmpty(cell) {
        var text := SearchText(cell);
        var upper := ToUpper(cond);
        var matched: bool;
        if upper == "EQUAL" {
          matched := text == value;
        } else if upper == "STARTWITH" {
          matched := StartsWith(text, value);
        } else if upper == "ENDWITH" {
          matched := EndsWith(text, value);
        } else if upper == "CONTENT" {
          matched := Contains(text, value);
        } else {
          return Err(IllegalArgument(BadCondition + cond));
        }
        if matched {
          return Ok(Some(rowIdx));
        }
      }
      rowIdx := rowIdx + 1;
    }
    r := Ok(None);
  }

  // ---------------------------------------------------------------- column templates

  const ColumnPrefix := "COLUMN("
  const BadColumn := "รูปแบบคอลัมน์ไม่ถูกต้อง: "

  /** extractColumnRef: text that does not start with COLUMN( is the reference itself.
      Otherwise the text between COLUMN( and the last character is split at commas
      outside double quotes (Tokenizer.SplitTopLevel in QuotesOnly mode), the pieces are
      trimmed, and the second one, less one outer pair of quotes, is the reference; with
      fewer than two pieces the result is null. `COLUMN(` alone has no last character to
      drop, and its substring throws. */
  function ExtractColumnRef(columnStr: string): (r: Result<Option<string>>)
    ensures !StartsWith(columnStr, ColumnPrefix) ==> r == Ok(Some(columnStr))
  {
    if !StartsWith(columnStr, ColumnPrefix) then Ok(Some(columnStr))
    else if |columnStr| == |ColumnPrefix| then Err(IndexOutOfBounds)
    else
      var params := Trimmed(Emitted(columnStr[|ColumnPrefix|..|columnStr| - 1], QuotesOnly));
      if |params| < 2 then Ok(None)
      else
        var ref :- Unquote(params[1]);
        Ok(Some(ref))
  }

  /** A quote-free name and reference in the documented form give back the reference,
      commas inside the quoted name included. */
  lemma ColumnRefOfDirective(name: string, ref: string)
    requires '"' !in name && '"' !in ref
    ensures ExtractColumnRef(ColumnPrefix + Quoted(name) + "," + Quoted(ref) + ")") == Ok(Some(ref))
  {
    var s := ColumnPrefix + Quoted(name) + "," + Quoted(ref) + ")";
    assert s[..|ColumnPrefix|] == ColumnPrefix;
    assert s[|ColumnPrefix|..|s| - 1] == Quoted(name) + "," + Quoted(ref);
    QuotedPair(name, ref);
    TrimOfTrimmed(Quoted(name));
    TrimOfTrimmed(Quoted(ref));
    assert Quoted(ref)[1..|Quoted(ref)| - 1] == ref;
  }

  /** A COLUMN( directive with one parameter names no reference. */
  lemma ColumnRefOfOneParam(name: string)
    requires NoDelimiter(name)
    ensures ExtractColumnRef(ColumnPrefix + Quoted(name) + ")") == Ok(None)
  {
    var s := ColumnPrefix + Quoted(name) + ")";
    assert s[..|ColumnPrefix|] == ColumnPrefix;
    assert s[|ColumnPrefix|..|s| - 1] == Quoted(name);
    QuotedPlain(name, QuotesOnly);
  }

  /** extractFirstPart's separators `,\s*`: Java's `\s` is space, tab, newline, vertical
      tab, form feed and carriage return. */
  predicate IsRegexSpace(c: char)
  {
    c == ' ' || c == '\t' || c == '\n' || c == 11 as char || c == 12 as char || c == '\r'
  }

  /** Text that `split(",\\s*")` turns into empty pieces only, so into no piece at all:
      it starts with a comma and holds nothing but commas and the spaces after them. */
  predicate OnlySeparators(content: string)
  {
    |content| > 0 && content[0] == ','
    && forall k | 0 <= k < |content| :: content[k] == ',' || IsRegexSpace(content[k])
  }

  /** extractFirstPart: for text of the form COLUMN(...), the text before the first
      comma of what is inside, with every quote removed; null for any other text and
      when splitting at `,\s*` leaves no piece. Its result is only ever printed. */
  function ExtractFirstPart(input: string): (r: Option<string>)
    ensures r.Some? ==> '"' !in r.value
  {
    if !Enclosed(input, ColumnPrefix, ')') then None
    else
      var content := input[|ColumnPrefix|..|input| - 1];
      if OnlySeparators(content) then None
      else
        var comma := IndexOfChar(content, ',');
        Some(RemoveQuotes(if comma < 0 then content else content[..comma]))
  }

  /** The first part of a directive in the documented form is its quoted name. */
  lemma FirstPartOfDirective(name: string, rest: string)
    requires '"' !in name && ',' !in name
    ensures ExtractFirstPart(ColumnPrefix + Quoted(name) + "," + rest + ")") == Some(name)
  {
    var s := ColumnPrefix + Quoted(name) + "," + rest + ")";
    var content := Quoted(name) + "," + rest;
    assert s[..|ColumnPrefix|] == ColumnPrefix;
    assert s[|s| - 1..] == ")";
    assert s[|ColumnPrefix|..|s| - 1] == content;
    assert content[0] == '"';
    assert ',' !in Quoted(name);
    FirstOccurrence(Quoted(name), rest, ',');
    assert content[..|Quoted(name)|] == Quoted(name);
    RemoveQuotesOfQuoted(name);
  }

  lemma RemoveQuotesOfQuoted(x: string)
    requires '"' !in x
    ensures RemoveQuotes(Quoted(x)) == x
  {
    ReplaceCharConcat(['"'] + x, ['"'], '"', "");
    ReplaceCharConcat(['"'], x, '"', "");
  }

  /** One entry of columnRefs read at the matched 0-based row `found`: the entry's
      reference (extractColumnRef of the trimmed entry; a null reference throws on
      `replace`), with every `?` replaced by the 1-based row number, must be letters
      then digits; it names the cell read, null where the row or the cell is missing. */
  function ReadTemplate(readSheet: Sheet, found: nat, template: string): (r: Result<Value>)
  {
    var ref :- ExtractColumnRef(Trim(template));
    if ref.None? then Err(NullPointer)
    else
      var actual := ReplaceChar(ref.value, '?', IntToString(found + 1));
      if !IsCellRef(actual) then Err(IllegalArgument(BadColumn + actual))
      else ReadCellValue(Some(readSheet), actual)
  }

  function TemplateReader(readSheet: Sheet, found: nat): string -> Result<Value>
  {
    t => ReadTemplate(readSheet, found, t)
  }

  /** `COLUMN("name","C?")` reads column C of the matched row. */
  lemma TemplateReadsFoundRow(readSheet: Sheet, found: nat, name: string, col: nat)
    requires '"' !in name && found < IntMax
    ensures ReadTemplate(readSheet, found, ColumnPrefix + Quoted(name) + "," + Quoted(ColString(col) + "?") + ")")
         == Ok(GetCellValue(CellAt(readSheet, found, col)))
  {
    var letters := ColString(col);
    var t := ColumnPrefix + Quoted(name) + "," + Quoted(letters + "?") + ")";
    assert '"' !in letters + "?" by {
      assert forall k | 0 <= k < |letters| :: 'A' <= letters[k] <= 'Z';
    }
    assert '?' !in letters by {
      assert forall k | 0 <= k < |letters| :: 'A' <= letters[k] <= 'Z';
    }
    assert t[0] == 'C' && t[|t| - 1] == ')';
    TrimOfTrimmed(t);
    ColumnRefOfDirective(name, letters + "?");
    ReplaceCharConcat(letters, "?", '?', IntToString(found + 1));
    assert ReplaceChar("?", '?', IntToString(found + 1)) == NatToString(found + 1);
    assert ReplaceChar(letters + "?", '?', IntToString(found + 1)) == CellName(col, found);
    CellNameRoundTrip(col, found);
    ReadCellValueOfCellName(readSheet, col, found);
  }

  /** findRowByConditionAndReadColumns on the workbook the file holds: the file-name
      check, the search sheet, the read sheet, the search column (as the reference
      `column + "1"`), the search, then one value per column template in order, or no
      values when no row matches. */
  function RowByValues(workbook: Workbook, fileName: string, searchSheetName: string, readSheetName: string,
                       searchColumn: string, cond: string, value: string, templates: seq<string>): (r: Result<seq<Value>>)
  {
    if !IsExcelFile(fileName) then Err(IllegalArgument(NotExcel))
    else
      var searchSheet :- GetSheet(workbook, searchSheetName);
      var readSheet :- GetSheet(workbook, readSheetName);
      var at :- CellReference(searchColumn + "1");
      var found :- FirstMatch(searchSheet, at.col, cond, value, 0);
      if found.None? then Ok([])
      else MapAll(templates, TemplateReader(readSheet, found.value))
  }

  /** Once the sheets and the search column resolve: a failed search is the call's
      failure, no match is an empty list, and a match gives exactly one value per
      template, each the template read at the matched row, unless some template
      throws, in which case the first one to throw decides the failure. */
  lemma RowByValuesShape(workbook: Workbook, fileName: string, searchSheetName: string, readSheetName: string,
                         searchColumn: string, cond: string, value: string, templates: seq<string>)
    requires IsExcelFile(fileName) && searchSheetName in workbook && readSheetName in workbook
    requires CellReference(searchColumn + "1").Ok?
    ensures var r := RowByValues(workbook, fileName, searchSheetName, readSheetName, searchColumn, cond, value, templates);
      var search := FirstMatch(workbook[searchSheetName], CellReference(searchColumn + "1").value.col, cond, value, 0);
      && (search.Err? ==> r == Err(search.failure))
      && (search == Ok(None) ==> r == Ok([]))
      && (search.Ok? && search.value.Some? ==>
            var f := TemplateReader(workbook[readSheetName], search.value.value);
            && (r.Ok? ==> |r.value| == |templates| && forall k | 0 <= k < |templates| :: f(templates[k]) == Ok(r.value[k]))
            && (r.Err? <==> exists k | 0 <= k < |templates| :: f(templates[k]).Err?))
  {
    var search := FirstMatch(workbook[searchSheetName], CellReference(searchColumn + "1").value.col, cond, value, 0);
    if search.Ok? && search.value.Some? {
      var f := TemplateReader(workbook[readSheetName], search.value.value);
      MapAllErr(templates, f);
      if MapAll(templates, f).Ok? {
        MapAllValues(templates, f);
      }
    }
  }

  /** findRowByConditionAndReadColumns: the search loop, then the loop over the
      column templates. */
  method FindRowByConditionAndReadColumns(workbook: Workbook, fileName: string, searchSheetName: string,
                                          readSheetName: string, searchColumn: string, cond: string,
                                          value: string, templates: seq<string>) returns (r: Result<seq<Value>>)
    ensures r == RowByValues(workbook, fileName, searchSheetName, readSheetName, searchColumn, cond, value, templates)
  {
    if !IsExcelFile(fileName) {
      return Err(IllegalArgument(NotExcel));
    }
    var searchSheet :- GetSheet(workbook, searchSheetName);
    var readSheet :- GetSheet(workbook, readSheetName);
    var at :- CellReference(searchColumn + "1");
    var found :- SearchRows(searchSheet, at.col, cond, value);
    if found.None? {
      return Ok([]);
    }
    r := MapInOrder(templates, TemplateReader(readSheet, found.value));
  }

  // ---------------------------------------------------------------- block reads

  const BadRowRange := "รูปแบบช่วงแถวไม่ถูกต้อง: "
  const BadMapping := "รูปแบบ mapping ไม่ถูกต้อง: "

  function CountMismatch(columns: nat, names: nat): string
  {
    "จำนวนคอลัมน์และ mapping ไม่ตรงกัน: " + IntToString(columns) + " vs " + IntToString(names)
  }

  /** The "first:last" rows of a block read, 0-based: exactly two pieces around ':'
      (String.split drops trailing empty pieces), each parsed as an `int` as written,
      without trimming, then less one. */
  function RowSpan(rowRangeStr: string): (r: Result<(int, int)>)
  {
    var parts := JavaSplit(rowRangeStr, ':');
    if |parts| != 2 then Err(IllegalArgument(BadRowRange + rowRangeStr))
    else
      var first :- ParseInt(parts[0]);
      var last :- ParseInt(parts[1]);
      Ok((first - 1, last - 1))
  }

  /** A range written from two numbers reads back as those rows, 0-based. */
  lemma RowSpanOfNumbers(a: int, b: int)
    requires InIntRange(a) && InIntRange(b)
    ensures RowSpan(IntToString(a) + ":" + IntToString(b)) == Ok((a - 1, b - 1))
  {
    NoColonInNumber(a);
    NoColonInNumber(b);
    SplitTwo(IntToString(a), IntToString(b), ':');
    ParseIntOfIntToString(a);
    ParseIntOfIntToString(b);
  }

  lemma NoColonInNumber(i: int)
    ensures ':' !in IntToString(i) && IntToString(i) != []
  {
    var d := NatToString(if i < 0 then -i else i);
    assert forall k | 0 <= k < |d| :: d[k] != ':' by {
      assert forall k | 0 <= k < |d| :: IsDigit(d[k]);
    }
    if i < 0 {
      assert IntToString(i) == "-" + d;
    }
  }

  /** The text between the brackets of "[...]"; anything else throws with the given
      message followed by the text. */
  function BracketContent(s: string, message: string): (r: Result<string>)
    ensures r.Ok? <==> Enclosed(s, "[", ']')
    ensures r.Ok? ==> s == "[" + r.value + "]"
    ensures r.Err? ==> r.failure == IllegalArgument(message + s)
  {
    if Enclosed(s, "[", ']') then Ok(s[1..|s| - 1]) else Err(IllegalArgument(message + s))
  }

  /** The column of one name of the column list: `new CellReference(name.trim() + "1")`. */
  function ColumnOf(part: string): (r: Result<nat>)
  {
    var at :- CellReference(Trim(part) + "1");
    Ok(at.col)
  }

  /** Column letters name their column. */
  lemma ColumnOfLetters(col: nat)
    ensures ColumnOf(ColString(col)) == Ok(col)
  {
    var letters := ColString(col);
    assert !IsSpace(letters[0]) && !IsSpace(letters[|letters| - 1]);
    TrimOfTrimmed(letters);
    assert letters + "1" == CellName(col, 0);
    CellNameRoundTrip(col, 0);
  }

  /** One name of a mapping: trimmed, less one outer pair of quotes (a lone quote throws). */
  function NameOf(part: string): Result<string>
  {
    Unquote(Trim(part))
  }

  /** The HashMap of one row: each key in turn bound to the value of its column, so a
      key listed twice keeps the later column's value. */
  function Record(sheet: Sheet, row: int, keys: seq<string>, cols: seq<nat>): map<string, Value>
    requires |keys| == |cols|
  {
    if keys == [] then map[]
    else Record(sheet, row, keys[..|keys| - 1], cols[..|cols| - 1])[keys[|keys| - 1] := GetCellValue(CellAt(sheet, row, cols[|cols| - 1]))]
  }

  /** A row's record has exactly the listed keys. */
  lemma {:induction false} RecordKeys(sheet: Sheet, row: int, keys: seq<string>, cols: seq<nat>)
    requires |keys| == |cols|
    ensures forall key :: key in Record(sheet, row, keys, cols) <==> key in keys
    decreases |keys|
  {
    if keys != [] {
      var front := keys[..|keys| - 1];
      RecordKeys(sheet, row, front, cols[..|cols| - 1]);
      assert forall key :: key in keys <==> key in front || key == keys[|keys| - 1] by {
        assert keys == front + [keys[|keys| - 1]];
      }
    }
  }

  /** The value under a key is read from the column of its last listing. */
  lemma {:induction false} RecordValue(sheet: Sheet, row: int, keys: seq<string>, cols: seq<nat>, i: nat)
    requires |keys| == |cols| && i < |keys|
    requires forall j | i < j < |keys| :: keys[j] != keys[i]
    ensures keys[i] in Record(sheet, row, keys, cols)
    ensures Record(sheet, row, keys, cols)[keys[i]] == GetCellValue(CellAt(sheet, row, cols[i]))
    decreases |keys|
  {
    if i < |keys| - 1 {
      var front, fcols := keys[..|keys| - 1], cols[..|cols| - 1];
      assert forall j | i < j < |front| :: front[j] == keys[j];
      RecordValue(sheet, row, front, fcols, i);
    }
  }

  /** The records of the block loop from row `lo` to row `hi`: one per row the sheet
      has, in row order; missing rows are passed over. */
  function Records(sheet: Sheet, lo: int, hi: int, keys: seq<string>, cols: seq<nat>): seq<map<string, Value>>
    requires |keys| == |cols|
    decreases hi - lo + 1
  {
    if hi < lo then []
    else Records(sheet, lo, hi - 1, keys, cols) + (if RowAt(sheet, hi).Some? then [Record(sheet, hi, keys, cols)] else [])
  }

  /** At most one record per row of the range. */
  lemma {:induction false} RecordsBound(sheet: Sheet, lo: int, hi: int, keys: seq<string>, cols: seq<nat>)
    requires |keys| == |cols|
    ensures |Records(sheet, lo, hi, keys, cols)| <= if hi < lo then 0 else hi - lo + 1
    decreases hi - lo + 1
  {
    if lo <= hi {
      RecordsBound(sheet, lo, hi - 1, keys, cols);
    }
  }

  /** Every record is the record of a row of the range that the sheet has, and every
      such row has its record among them. */
  lemma {:induction false} RecordsExactly(sheet: Sheet, lo: int, hi: int, keys: seq<string>, cols: seq<nat>)
    requires |keys| == |cols|
    ensures forall m | m in Records(sheet, lo, hi, keys, cols) ::
      exists r | lo <= r <= hi :: RowAt(sheet, r).Some? && m == Record(sheet, r, keys, cols)
    ensures forall r | lo <= r <= hi && RowAt(sheet, r).Some? :: Record(sheet, r, keys, cols) in Records(sheet, lo, hi, keys, cols)
    decreases hi - lo + 1
  {
    if lo <= hi {
      RecordsExactly(sheet, lo, hi - 1, keys, cols);
    }
  }

  /** Every record of a block has exactly the listed keys. */
  lemma RecordsKeys(sheet: Sheet, lo: int, hi: int, keys: seq<string>, cols: seq<nat>)
    requires |keys| == |cols|
    ensures forall m | m in Records(sheet, lo, hi, keys, cols) :: forall key :: key in m <==> key in keys
  {
    RecordsExactly(sheet, lo, hi, keys, cols);
    forall r | lo <= r <= hi {
      RecordKeys(sheet, r, keys, cols);
    }
  }

  /** The keys a mapping loop produced are the names of the mapping, unquoted. */
  lemma MappedKeys(names: seq<string>)
    requires MapAll(names, NameOf).Ok?
    ensures forall key :: key in MapAll(names, NameOf).value <==> exists k | 0 <= k < |names| :: NameOf(names[k]) == Ok(key)
  {
    var keys := MapAll(names, NameOf).value;
    MapAllValues(names, NameOf);
    forall key | key in keys ensures exists k | 0 <= k < |names| :: NameOf(names[k]) == Ok(key) {
      var k :| 0 <= k < |keys| && keys[k] == key;
      assert NameOf(names[k]) == Ok(key);
    }
  }

  /** Past the last row: a loop that ran from `lo` up to `hi` has every record. */
  lemma RecordsDone(sheet: Sheet, lo: int, hi: int, rowIdx: int, keys: seq<string>, cols: seq<nat>)
    requires |keys| == |cols|
    requires hi < rowIdx && (rowIdx <= hi + 1 || rowIdx == lo)
    ensures Records(sheet, lo, rowIdx - 1, keys, cols) == Records(sheet, lo, hi, keys, cols)
  {
  }

  /** readRowsAndColumns on the workbook the file holds: the file-name check, the sheet,
      the row range, the bracketed column list split at commas, each column's index,
      then one record per row the sheet has, keyed by the trimmed column names. */
  function RowsAndColumns(workbook: Workbook, fileName: string, sheetName: string, rowRangeStr: string,
                          columnsStr: string): Result<seq<map<string, Value>>>
  {
    if !IsExcelFile(fileName) then Err(IllegalArgument(NotExcel))
    else
      var sheet :- GetSheet(workbook, sheetName);
      var span :- RowSpan(rowRangeStr);
      var content :- BracketContent(columnsStr, BadColumn);
      var parts := JavaSplit(content, ',');
      var cols :- MapAll(parts, ColumnOf);
      Ok(Records(sheet, span.0, span.1, Trimmed(parts), cols))
  }

  /** readRowsAndColumnsWithMapping: as readRowsAndColumns, with a bracketed list of
      names that must be as long as the column list (checked before any column name is
      resolved) and that key the records in place of the column names. */
  function RowsWithMapping(workbook: Workbook, fileName: string, sheetName: string, rowRangeStr: string,
                           columnsStr: string, mappingStr: string): Result<seq<map<string, Value>>>
  {
    if !IsExcelFile(fileName) then Err(IllegalArgument(NotExcel))
    else
      var sheet :- GetSheet(workbook, sheetName);
      var span :- RowSpan(rowRangeStr);
      var content :- BracketContent(columnsStr, BadColumn);
      var parts := JavaSplit(content, ',');
      var mapped :- BracketContent(mappingStr, BadMapping);
      var names := JavaSplit(mapped, ',');
      if |parts| != |names| then Err(IllegalArgument(CountMismatch(|parts|, |names|)))
      else
        var cols :- MapAll(parts, ColumnOf);
        var keys :- MapAll(names, NameOf);
        Ok(Records(sheet, span.0, span.1, keys, cols))
  }

  /** A block read gives at most one record per row of its range, and each record
      has exactly the trimmed column names as keys. */
  lemma RowsAndColumnsShape(workbook: Workbook, fileName: string, sheetName: string, rowRangeStr: string,
                            columnsStr: string)
    requires RowsAndColumns(workbook, fileName, sheetName, rowRangeStr, columnsStr).Ok?
    ensures var rows := RowsAndColumns(workbook, fileName, sheetName, rowRangeStr, columnsStr).value;
      var span := RowSpan(rowRangeStr).value;
      var names := Trimmed(JavaSplit(BracketContent(columnsStr, BadColumn).value, ','));
      && |rows| <= (if span.1 < span.0 then 0 else span.1 - span.0 + 1)
      && forall m | m in rows :: forall key :: key in m <==> key in names
  {
    var sheet := workbook[sheetName];
    var span := RowSpan(rowRangeStr).value;
    var parts := JavaSplit(BracketContent(columnsStr, BadColumn).value, ',');
    var cols := MapAll(parts, ColumnOf).value;
    RecordsBound(sheet, span.0, span.1, Trimmed(parts), cols);
    RecordsKeys(sheet, span.0, span.1, Trimmed(parts), cols);
  }

  /** With a mapping, a count mismatch is reported whatever the column names are, and
      a successful read keys every record by exactly the unquoted mapping names, with
      at most one record per row of the range. */
  lemma RowsWithMappingShape(workbook: Workbook, fileName: string, sheetName: string, rowRangeStr: string,
                             columnsStr: string, mappingStr: string)
    requires IsExcelFile(fileName) && sheetName in workbook && RowSpan(rowRangeStr).Ok?
    requires Enclosed(columnsStr, "[", ']') && Enclosed(mappingStr, "[", ']')
    ensures var r := RowsWithMapping(workbook, fileName, sheetName, rowRangeStr, columnsStr, mappingStr);
      var parts := JavaSplit(BracketContent(columnsStr, BadColumn).value, ',');
      var names := JavaSplit(BracketContent(mappingStr, BadMapping).value, ',');
      var span := RowSpan(rowRangeStr).value;
      && (|parts| != |names| ==> r == Err(IllegalArgument(CountMismatch(|parts|, |names|))))
      && (r.Ok? ==>
            && |r.value| <= (if span.1 < span.0 then 0 else span.1 - span.0 + 1)
            && forall m | m in r.value :: forall key :: key in m <==> exists k | 0 <= k < |names| :: NameOf(names[k]) == Ok(key))
  {
    var r := RowsWithMapping(workbook, fileName, sheetName, rowRangeStr, columnsStr, mappingStr);
    var parts := JavaSplit(BracketContent(columnsStr, BadColumn).value, ',');
    var names := JavaSplit(BracketContent(mappingStr, BadMapping).value, ',');
    if r.Ok? {
      var sheet := workbook[sheetName];
      var span := RowSpan(rowRangeStr).value;
      var cols := MapAll(parts, ColumnOf).value;
      var keys := MapAll(names, NameOf).value;
      assert r.value == Records(sheet, span.0, span.1, keys, cols);
      RecordsBound(sheet, span.0, span.1, keys, cols);
      RecordsKeys(sheet, span.0, span.1, keys, cols);
      MappedKeys(names);
    }
  }

  /** The block loop: rows from `lo` to `hi`, missing rows passed over. */
  method ReadRecords(sheet: Sheet, lo: int, hi: int, keys: seq<string>, cols: seq<nat>)
    returns (rows: seq<map<string, Value>>)
    requires |keys| == |cols|
    ensures rows == Records(sheet, lo, hi, keys, cols)
  {
    rows := [];
    var rowIdx := lo;
    while rowIdx <= hi
      invariant rowIdx <= hi + 1 || rowIdx == lo
      invariant rows == Records(sheet, lo, rowIdx - 1, keys, cols)
      decreases hi + 1 - rowIdx
    {
      var row := RowAt(sheet, rowIdx);
      if row.Some? {
        var rowData := ReadRecord(sheet, rowIdx, keys, cols);
        rows := rows + [rowData];
      }
      rowIdx := rowIdx + 1;
    }
    RecordsDone(sheet, lo, hi, rowIdx, keys, cols);
  }

  /** The inner loop: one `put` per column, in order. */
  method ReadRecord(sheet: Sheet, row: int, keys: seq<string>, cols: seq<nat>) returns (rowData: map<string, Value>)
    requires |keys| == |cols|
    ensures rowData == Record(sheet, row, keys, cols)
  {
    rowData := map[];
    for i := 0 to |keys|
      invariant rowData == Record(sheet, row, keys[..i], cols[..i])
    {
      assert keys[..i + 1][..i] == keys[..i] && cols[..i + 1][..i] == cols[..i];
      rowData := rowData[keys[i] := GetCellValue(CellAt(sheet, row, cols[i]))];
    }
    assert keys[..|keys|] == keys && cols[..|cols|] == cols;
  }

  /** readRowsAndColumns: the checks, the loop over the column names, the block loop. */
  method ReadRowsAndColumns(workbook: Workbook, fileName: string, sheetName: string, rowRangeStr: string,
                            columnsStr: string) returns (r: Result<seq<map<string, Value>>>)
    ensures r == RowsAndColumns(workbook, fileName, sheetName, rowRangeStr, columnsStr)
  {
    if !IsExcelFile(fileName) {
      return Err(IllegalArgument(NotExcel));
    }
    var sheet :- GetSheet(workbook, sheetName);
    var span :- RowSpan(rowRangeStr);
    var content :- BracketContent(columnsStr, BadColumn);
    var parts := JavaSplit(content, ',');
    var cols :- MapInOrder(parts, ColumnOf);
    var rows := ReadRecords(sheet, span.0, span.1, Trimmed(parts), cols);
    r := Ok(rows);
  }

  /** readRowsAndColumnsWithMapping: the checks, the count comparison, the loops over
      the column names and the mapping names, the block loop. */
  method ReadRowsAndColumnsWithMapping(workbook: Workbook, fileName: string, sheetName: string,
                                       rowRangeStr: string, columnsStr: string, mappingStr: string)
    returns (r: Result<seq<map<string, Value>>>)
    ensures r == RowsWithMapping(workbook, fileName, sheetName, rowRangeStr, columnsStr, mappingStr)
  {
    if !IsExcelFile(fileName) {
      return Err(IllegalArgument(NotExcel));
    }
    var sheet :- GetSheet(workbook, sheetName);
    var span :- RowSpan(rowRangeStr);
    var content :- BracketContent(columnsStr, BadColumn);
    var parts := JavaSplit(content, ',');
    var mapped :- BracketContent(mappingStr, BadMapping);
    var names := JavaSplit(mapped, ',');
    if |parts| != |names| {
      return Err(IllegalArgument(CountMismatch(|parts|, |names|)));
    }
    var cols :- MapInOrder(parts, ColumnOf);
    var keys :- MapInOrder(names, NameOf);
    var rows := ReadRecords(sheet, span.0, span.1, keys, cols);
    r := Ok(rows);
  }
}
