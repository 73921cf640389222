/** ExcelReader.readExcelVariables: every variable binding evaluated against the
    workbook, the results keyed by the lower-cased variable name, next to the agency
    code taken from the file name. */
module Variables {
  import opened Outcomes
  import opened Strings
  import opened Cells
  import opened ExcelReader
  import opened Tokenizer
  import opened ExtractParams
  import opened RowReads

  /** What a variable is bound to: a String instruction, or one of the configuration
      maps the directive binding builds, told apart by their "type" entry. An absent
      optional entry is None. */
  datatype Binding =
    | Instruction(text: string)
    | CountConfig(rangeStr: string, target: Option<string>)
    | ColumnConfig(cellRef: string, target: Option<string>)
    | RowByConfig(searchSheetName: string, readSheetName: string, searchColumn: string,
                  searchCondition: string, searchValue: string, columnRefs: string)
    | RowConfig(sheetName: string, rowRange: string, columns: string, mapping: Option<string>)

  /** What the result map holds for a variable: one object (a String, an Integer count
      or a cell's value), the list a ROWBY reads, or the records a ROW reads. */
  datatype Field =
    | Scalar(v: Value)
    | Found(values: seq<Value>)
    | Rows(records: seq<map<string, Value>>)

  const Unsupported := "คำสั่งไม่รองรับ: "
  const Failed := "ข้อผิดพลาด: "
  const AgencyKey := "agencyCode"
  const SkippedKey := "validates"

  // ---------------------------------------------------------------- string instructions

  /** A String instruction, trimmed: "FIX " then a value, kept trimmed; a cell reference,
      read from the default sheet; "COUNT " in any letter case then a range, counted on
      the default sheet; anything else becomes the unsupported-instruction message.
      Exceptions here are not caught. */
  function InstructionValue(sheet: Option<Sheet>, text: string): (r: Result<Value>)
  {
    var instr := Trim(text);
    if StartsWith(instr, "FIX ") then Ok(Text(Trim(instr[4..])))
    else if IsCellRef(instr) then ReadCellValue(sheet, instr)
    else if StartsWith(ToUpper(instr), "COUNT ") then
      var n :- NonEmptyCount(sheet, Trim(instr[6..]));
      Ok(Integer(n))
    else Ok(Text(Unsupported + instr))
  }

  /** `"FIX " + value` gives back the value, trimmed, when it is not blank. */
  lemma FixInstruction(sheet: Option<Sheet>, v: string)
    requires !IsBlank(v)
    ensures InstructionValue(sheet, "FIX " + v) == Ok(Text(Trim(v)))
  {
    var kept := v[..LeadingSpaces(v) + |Trim(v)|];
    FixTrimmed(v);
    KeptTrims(v);
    var instr := "FIX " + kept;
    assert instr[..4] == "FIX ";
    assert instr[4..] == kept;
  }

  /** Trimming `"FIX " + value` drops only the value's trailing spaces. */
  lemma FixTrimmed(v: string)
    requires !IsBlank(v)
    ensures LeadingSpaces(v) + |Trim(v)| <= |v|
    ensures Trim("FIX " + v) == "FIX " + v[..LeadingSpaces(v) + |Trim(v)|]
  {
    TrimShape(v);
    BlankIffTrimEmpty(v);
    var e := LeadingSpaces(v) + |Trim(v)|;
    var kept, pad := v[..e], v[e..];
    assert v[e - 1] == Trim(v)[|Trim(v)| - 1];
    assert forall k | 0 <= k < |pad| :: pad[k] == v[e + k];
    var instr := "FIX " + kept;
    assert instr[|instr| - 1] == v[e - 1];
    assert "FIX " + v == [] + instr + pad;
    TrimOfPadded([], instr, pad);
  }

  /** The value without its trailing spaces trims to the value's trim. */
  lemma KeptTrims(v: string)
    requires LeadingSpaces(v) + |Trim(v)| <= |v|
    ensures Trim(v[..LeadingSpaces(v) + |Trim(v)|]) == Trim(v)
  {
    TrimShape(v);
    var a := LeadingSpaces(v);
    var sp1, t := v[..a], Trim(v);
    assert forall k | 0 <= k < |sp1| :: sp1[k] == v[k];
    assert v[..a + |t|] == sp1 + t + [];
    TrimOfPadded(sp1, t, []);
  }

  /** `"FIX " + value` with a blank value trims to "FIX", which no branch accepts: the
      variable gets the unsupported-instruction message, not an empty value. */
  lemma FixOfBlank(sheet: Option<Sheet>, v: string)
    requires IsBlank(v)
    ensures InstructionValue(sheet, "FIX " + v) == Ok(Text(Unsupported + "FIX"))
  {
    BlankIffAllSpaces(v);
    var pad := " " + v;
    assert forall k | 0 <= k < |pad| :: IsSpace(pad[k]);
    assert "FIX " + v == [] + "FIX" + pad;
    TrimOfPadded([], "FIX", pad);
    assert LetterRun("X") == 1;
    assert "FIX"[1..] == "IX" && "IX"[1..] == "X";
    assert LetterRun("FIX") == 3;
  }

  /** A cell reference is read from the default sheet. */
  lemma CellInstruction(sheet: Option<Sheet>, col: nat, row: nat)
    ensures InstructionValue(sheet, CellName(col, row)) == ReadCellValue(sheet, CellName(col, row))
  {
    var name := CellName(col, row);
    var letters, digits := ColString(col), NatToString(row + 1);
    assert name == letters + digits;
    assert forall k | 0 <= k < |name| :: IsLetter(name[k]) || IsDigit(name[k]) by {
      assert forall k | 0 <= k < |letters| :: name[k] == letters[k];
      assert forall k | 0 <= k < |digits| :: name[|letters| + k] == digits[k];
    }
    TrimOfTrimmed(name);
    assert !StartsWith(name, "FIX ") by {
      if |name| >= 4 {
        assert name[3] != ' ';
      }
    }
    CellNameRoundTrip(col, row);
  }

  /** "COUNT " and a range counts that range on the default sheet. */
  lemma CountInstruction(sheet: Option<Sheet>, range: string)
    requires range != [] && !IsSpace(range[0]) && !IsSpace(range[|range| - 1])
    ensures var n := NonEmptyCount(sheet, range);
      InstructionValue(sheet, "COUNT " + range) == if n.Ok? then Ok(Integer(n.value)) else Err(n.failure)
  {
    var instr := "COUNT " + range;
    TrimOfTrimmed(instr);
    TrimOfTrimmed(range);
    assert !StartsWith(instr, "FIX ") by { assert instr[0] == 'C'; }
    assert !IsCellRef(instr) by {
      assert instr[..6] == "COUNT ";
      assert LetterRun(instr) == 5 by {
        assert forall k | 0 <= k < 5 :: IsLetter(instr[k]);
        assert !IsLetter(instr[5]);
      }
      assert !IsDigit(instr[5]);
    }
    assert ToUpper(instr)[..6] == "COUNT ";
    assert instr[6..] == range;
  }

  // ---------------------------------------------------------------- configurations

  /** `catch (IllegalArgumentException e)`: the message becomes the variable's value;
      any other exception goes on. */
  function Caught(r: Result<Field>): Result<Field>
  {
    match r
    case Ok(v) => Ok(v)
    case Err(e) => if e.IllegalArgument? then Ok(Scalar(Text(Failed + e.message))) else Err(e)
  }

  /** The column templates of a ROWBY: the bracketed list split at commas outside
      quotes and parentheses, each piece trimmed. */
  function TemplatesOf(columnRefs: string): Result<seq<string>>
  {
    var content :- BracketContent(columnRefs, BadColumn);
    Ok(Trimmed(Emitted(content, QuotesParens)))
  }

  /** A configuration map, before its IllegalArgumentException is caught: a COUNT on its
      own sheet (through countCells, which opens the file again) or on the default
      sheet; a COLUMN on its own sheet or on the default sheet; a ROWBY search; a ROW
      block read, with a mapping when there is one. */
  function ConfigValue(workbook: Workbook, fileName: string, sheet: Option<Sheet>, b: Binding): Result<Field>
    requires !b.Instruction?
  {
    match b
    case CountConfig(rangeStr, target) =>
      var n :- if target.Some? then CountCells(workbook, fileName, target.value, rangeStr) else NonEmptyCount(sheet, rangeStr);
      Ok(Scalar(Integer(n)))
    case ColumnConfig(cellRef, target) =>
      var v :- if target.Some? then ReadCellValueIn(workbook, target.value, cellRef) else ReadCellValue(sheet, cellRef);
      Ok(Scalar(v))
    case RowByConfig(searchSheetName, readSheetName, searchColumn, searchCondition, searchValue, columnRefs) =>
      var templates :- TemplatesOf(columnRefs);
      var values :- RowByValues(workbook, fileName, searchSheetName, readSheetName, searchColumn,
                                searchCondition, searchValue, templates);
      Ok(Found(values))
    case RowConfig(target, rowRange, columns, mapping) =>
      var rows :- if mapping.Some? then RowsWithMapping(workbook, fileName, target, rowRange, columns, mapping.value)
                  else RowsAndColumns(workbook, fileName, target, rowRange, columns);
      Ok(Rows(rows))
  }

  /** One entry of the loop. */
  function BindingValue(workbook: Workbook, fileName: string, sheet: Option<Sheet>, b: Binding): Result<Field>
  {
    if b.Instruction? then
      var v :- InstructionValue(sheet, b.text);
      Ok(Scalar(v))
    else Caught(ConfigValue(workbook, fileName, sheet, b))
  }

  /** A configuration's IllegalArgumentException becomes its value; only other
      exceptions end the loop. An instruction's exceptions all end it. */
  lemma ConfigErrorsBecomeValues(workbook: Workbook, fileName: string, sheet: Option<Sheet>, b: Binding)
    ensures !b.Instruction? ==>
      var raw := ConfigValue(workbook, fileName, sheet, b);
      && (BindingValue(workbook, fileName, sheet, b).Err? <==> raw.Err? && !raw.failure.IllegalArgument?)
      && (raw.Err? && raw.failure.IllegalArgument? ==>
            BindingValue(workbook, fileName, sheet, b) == Ok(Scalar(Text(Failed + raw.failure.message))))
    ensures b.Instruction? ==>
      (BindingValue(workbook, fileName, sheet, b).Err? <==> InstructionValue(sheet, b.text).Err?)
  {
  }

  /** A COUNT or COLUMN naming a sheet the workbook lacks gets the sheet-not-found
      message as its value. */
  lemma MissingTargetSheet(workbook: Workbook, fileName: string, sheet: Option<Sheet>, b: Binding)
    requires b.CountConfig? || b.ColumnConfig?
    requires IsExcelFile(fileName) && b.target.Some? && b.target.value !in workbook
    ensures BindingValue(workbook, fileName, sheet, b) == Ok(Scalar(Text(Failed + SheetNotFound(b.target.value))))
  {
  }

  // ---------------------------------------------------------------- the loop

  /** File.getName for a '/'-separated path: the text after the last '/'. */
  function BaseName(path: string): (name: string)
    ensures |name| <= |path| && path[|path| - |name|..] == name
    ensures '/' !in name
  {
    if path == [] || path[|path| - 1] == '/' then []
    else BaseName(path[..|path| - 1]) + [path[|path| - 1]]
  }

  /** The agency code: the first five characters of the file's name, or "" when the
      name is shorter. */
  function AgencyCode(fileName: string): (code: string)
    ensures |BaseName(fileName)| >= 5 ==> code == BaseName(fileName)[..5]
    ensures |BaseName(fileName)| < 5 ==> code == ""
  {
    var baseName := BaseName(fileName);
    if |baseName| >= 5 then baseName[..5] else ""
  }

  /** The evaluation of one entry against this workbook and default sheet. */
  function Evaluator(workbook: Workbook, fileName: string, sheet: Option<Sheet>): Binding -> Result<Field>
  {
    b => BindingValue(workbook, fileName, sheet, b)
  }

  /** The loop over the entries of `variables`, in the order the HashMap yields them
      (`order`): the agency code first, then each entry under its lower-cased name,
      "validates" passed over, the first exception ending the loop. */
  function Evaluated(agency: string, eval: Binding -> Result<Field>, variables: map<string, Binding>,
                     order: seq<string>): Result<map<string, Field>>
    requires forall k | 0 <= k < |order| :: order[k] in variables
    decreases |order|
  {
    if order == [] then Ok(map[AgencyKey := Scalar(Text(agency))])
    else
      var front :- Evaluated(agency, eval, variables, order[..|order| - 1]);
      var key := order[|order| - 1];
      if ToLower(key) == SkippedKey then Ok(front)
      else
        var v :- eval(variables[key]);
        Ok(front[ToLower(key) := v])
  }

  /** The default sheet: none when no name is given, else the named sheet, which must
      exist. */
  function DefaultSheet(workbook: Workbook, sheetName: string): Result<Option<Sheet>>
  {
    if sheetName == "" then Ok(None)
    else
      var sheet :- GetSheet(workbook, sheetName);
      Ok(Some(sheet))
  }

  /** readExcelVariables: a default sheet named but missing throws before any entry is
      evaluated. */
  function ExcelVariables(workbook: Workbook, fileName: string, sheetName: string, variables: map<string, Binding>,
                          order: seq<string>): (r: Result<map<string, Field>>)
    requires forall k | 0 <= k < |order| :: order[k] in variables
    ensures sheetName != "" && sheetName !in workbook ==> r == Err(IllegalArgument(SheetNotFound(sheetName)))
  {
    var sheet :- DefaultSheet(workbook, sheetName);
    Evaluated(AgencyCode(fileName), Evaluator(workbook, fileName, sheet), variables, order)
  }

  /** `order` lists every key of `variables` once: the HashMap's iteration. */
  predicate Enumerates(order: seq<string>, variables: map<string, Binding>)
  {
    && (forall k | 0 <= k < |order| :: order[k] in variables)
    && (forall key | key in variables :: key in order)
    && (forall i, j | 0 <= i < j < |order| :: order[i] != order[j])
  }

  /** A lower-cased name is never the agency code's key, which holds a capital. */
  lemma NotAgencyKey(key: string)
    ensures ToLower(key) != AgencyKey
  {
    if |key| == |AgencyKey| {
      assert ToLower(key)[6] != 'C';
    }
  }

  /** Some entry of `order` has the lower-cased name `name`. */
  predicate Named(order: seq<string>, name: string)
  {
    exists k | 0 <= k < |order| :: ToLower(order[k]) == name
  }

  lemma NamedStep(order: seq<string>, name: string)
    requires order != []
    ensures Named(order, name) <==> Named(order[..|order| - 1], name) || ToLower(order[|order| - 1]) == name
  {
    var front := order[..|order| - 1];
    if Named(order, name) && ToLower(order[|order| - 1]) != name {
      var k :| 0 <= k < |order| && ToLower(order[k]) == name;
      assert front[k] == order[k];
    }
    if Named(front, name) {
      var k :| 0 <= k < |front| && ToLower(front[k]) == name;
      assert order[k] == front[k];
    }
  }

  /** The result holds the agency code and the lower-cased name of every entry but
      "validates", and nothing else. */
  lemma {:induction false} EvaluatedKeys(agency: string, eval: Binding -> Result<Field>,
                                         variables: map<string, Binding>, order: seq<string>)
    requires forall k | 0 <= k < |order| :: order[k] in variables
    requires Evaluated(agency, eval, variables, order).Ok?
    ensures forall name :: (name in Evaluated(agency, eval, variables, order).value
      <==> name == AgencyKey || (name != SkippedKey && Named(order, name)))
    decreases |order|
  {
    if order != [] {
      var front := order[..|order| - 1];
      EvaluatedKeys(agency, eval, variables, front);
      forall name {
        NamedStep(order, name);
      }
    }
  }

  /** The agency code is never overwritten by an entry. */
  lemma {:induction false} EvaluatedAgency(agency: string, eval: Binding -> Result<Field>,
                                           variables: map<string, Binding>, order: seq<string>)
    requires forall k | 0 <= k < |order| :: order[k] in variables
    requires Evaluated(agency, eval, variables, order).Ok?
    ensures AgencyKey in Evaluated(agency, eval, variables, order).value
    ensures Evaluated(agency, eval, variables, order).value[AgencyKey] == Scalar(Text(agency))
    decreases |order|
  {
    if order != [] {
      EvaluatedAgency(agency, eval, variables, order[..|order| - 1]);
      NotAgencyKey(order[|order| - 1]);
    }
  }

  /** An entry whose lower-cased name no other entry shares holds its own value,
      whatever the iteration order. */
  lemma {:induction false} EvaluatedValue(agency: string, eval: Binding -> Result<Field>,
                                          variables: map<string, Binding>, order: seq<string>, i: nat)
    requires forall k | 0 <= k < |order| :: order[k] in variables
    requires Evaluated(agency, eval, variables, order).Ok?
    requires i < |order| && ToLower(order[i]) != SkippedKey
    requires forall j | 0 <= j < |order| && j != i :: ToLower(order[j]) != ToLower(order[i])
    ensures eval(variables[order[i]]).Ok?
    ensures ToLower(order[i]) in Evaluated(agency, eval, variables, order).value
    ensures Evaluated(agency, eval, variables, order).value[ToLower(order[i])]
         == eval(variables[order[i]]).value
    decreases |order|
  {
    var front := order[..|order| - 1];
    if i < |order| - 1 {
      assert forall j | 0 <= j < |front| :: front[j] == order[j];
      EvaluatedValue(agency, eval, variables, front, i);
    }
  }

  /** The loop throws exactly when some entry other than "validates" throws, whatever
      the iteration order. */
  lemma {:induction false} EvaluatedErr(agency: string, eval: Binding -> Result<Field>,
                                        variables: map<string, Binding>, order: seq<string>)
    requires forall k | 0 <= k < |order| :: order[k] in variables
    ensures Evaluated(agency, eval, variables, order).Err?
      <==> exists k | 0 <= k < |order| :: ToLower(order[k]) != SkippedKey
                                        && eval(variables[order[k]]).Err?
    decreases |order|
  {
    if order != [] {
      var front := order[..|order| - 1];
      EvaluatedErr(agency, eval, variables, front);
      assert forall k | 0 <= k < |front| :: front[k] == order[k];
    }
  }

  /** The loop's step for the entry at position i. */
  lemma EvaluatedStep(agency: string, eval: Binding -> Result<Field>, variables: map<string, Binding>,
                      order: seq<string>, i: nat, result: map<string, Field>)
    requires forall k | 0 <= k < |order| :: order[k] in variables
    requires i < |order| && Evaluated(agency, eval, variables, order[..i]) == Ok(result)
    ensures var v := eval(variables[order[i]]);
      Evaluated(agency, eval, variables, order[..i + 1])
        == if ToLower(order[i]) == SkippedKey then Ok(result)
           else if v.Err? then Err(v.failure)
           else Ok(result[ToLower(order[i]) := v.value])
  {
    assert order[..i + 1][..i] == order[..i];
  }

  /** Once the loop has thrown, the remaining entries do not matter. */
  lemma {:induction false} EvaluatedErrStays(agency: string, eval: Binding -> Result<Field>,
                                             variables: map<string, Binding>, order: seq<string>, j: nat)
    requires forall k | 0 <= k < |order| :: order[k] in variables
    requires j <= |order| && Evaluated(agency, eval, variables, order[..j]).Err?
    ensures Evaluated(agency, eval, variables, order) == Evaluated(agency, eval, variables, order[..j])
    decreases |order| - j
  {
    if j < |order| {
      assert order[..j + 1][..j] == order[..j];
      EvaluatedErrStays(agency, eval, variables, order, j + 1);
    } else {
      assert order[..j] == order;
    }
  }

  /** readExcelVariables: the default sheet, then the loop over the entries. */
  method ReadExcelVariables(workbook: Workbook, fileName: string, sheetName: string, variables: map<string, Binding>,
                            order: seq<string>) returns (r: Result<map<string, Field>>)
    requires forall k | 0 <= k < |order| :: order[k] in variables
    ensures r == ExcelVariables(workbook, fileName, sheetName, variables, order)
  {
    var sheet: Option<Sheet> := None;
    if sheetName != "" {
      if sheetName !in workbook {
        return Err(IllegalArgument(SheetNotFound(sheetName)));
      }
      sheet := Some(workbook[sheetName]);
    }
    var agency, eval := AgencyCode(fileName), Evaluator(workbook, fileName, sheet);
    var result := map[AgencyKey := Scalar(Text(agency))];
    assert order[..0] == [];
    for i := 0 to |order|
      invariant Evaluated(agency, eval, variables, order[..i]) == Ok(result)
    {
      EvaluatedStep(agency, eval, variables, order, i, result);
      var varName := ToLower(order[i]);
      if varName == SkippedKey {
        continue;
      }
      var value := EvaluateBinding(workbook, fileName, sheet, variables[order[i]]);
      if value.Err? {
        EvaluatedErrStays(agency, eval, variables, order, i + 1);
        return Err(value.failure);
      }
      result := result[varName := value.value];
    }
    assert order[..|order|] == order;
    r := Ok(result);
  }

  /** The body of the loop for one entry. */
  method EvaluateBinding(workbook: Workbook, fileName: string, sheet: Option<Sheet>, b: Binding)
    returns (r: Result<Field>)
    ensures r == BindingValue(workbook, fileName, sheet, b)
  {
    if b.Instruction? {
      var v :- EvaluateInstruction(sheet, b.text);
      return Ok(Scalar(v));
    }
    var raw: Result<Field>;
    match b {
      case CountConfig(rangeStr, target) =>
        raw := EvaluateCount(workbook, fileName, sheet, rangeStr, target);
      case ColumnConfig(cellRef, target) =>
        var v := if target.Some? then ReadCellValueIn(workbook, target.value, cellRef) else ReadCellValue(sheet, cellRef);
        raw := if v.Ok? then Ok(Scalar(v.value)) else Err(v.failure);
      case RowByConfig(_, _, _, _, _, _) =>
        raw := EvaluateRowBy(workbook, fileName, b);
      case RowConfig(_, _, _, _) =>
        raw := EvaluateRow(workbook, fileName, b);
    }
    if raw.Err? && raw.failure.IllegalArgument? {
      r := Ok(Scalar(Text(Failed + raw.failure.message)));
    } else {
      r := raw;
    }
  }

  /** The String branch, with its counting loop. */
  method EvaluateInstruction(sheet: Option<Sheet>, text: string) returns (r: Result<Value>)
    ensures r == InstructionValue(sheet, text)
  {
    var instr := Trim(text);
    if StartsWith(instr, "FIX ") {
      r := Ok(Text(Trim(instr[4..])));
    } else if IsCellRef(instr) {
      r := ReadCellValue(sheet, instr);
    } else if StartsWith(ToUpper(instr), "COUNT ") {
      var n :- CountNonEmptyCells(sheet, Trim(instr[6..]));
      r := Ok(Integer(n));
    } else {
      r := Ok(Text(Unsupported + instr));
    }
  }

  /** The COUNT branch, before its catch. */
  method EvaluateCount(workbook: Workbook, fileName: string, sheet: Option<Sheet>, rangeStr: string,
                       target: Option<string>) returns (r: Result<Field>)
    ensures r == ConfigValue(workbook, fileName, sheet, CountConfig(rangeStr, target))
  {
    var n: int;
    if target.Some? {
      if !IsExcelFile(fileName) {
        return Err(IllegalArgument(NotExcel));
      }
      var targetSheet :- GetSheet(workbook, target.value);
      n :- CountNonEmptyCells(Some(targetSheet), rangeStr);
    } else {
      n :- CountNonEmptyCells(sheet, rangeStr);
    }
    r := Ok(Scalar(Integer(n)));
  }

  /** The ROWBY branch, before its catch: the template scan, then the search. */
  method EvaluateRowBy(workbook: Workbook, fileName: string, b: Binding) returns (r: Result<Field>)
    requires b.RowByConfig?
    ensures r == ConfigValue(workbook, fileName, None, b)
  {
    var content :- BracketContent(b.columnRefs, BadColumn);
    var pieces := SplitTopLevel(content, QuotesParens);
    var values :- FindRowByConditionAndReadColumns(workbook, fileName, b.searchSheetName, b.readSheetName,
                                                   b.searchColumn, b.searchCondition, b.searchValue, Trimmed(pieces));
    r := Ok(Found(values));
  }

  /** The ROW branch, before its catch. */
  method EvaluateRow(workbook: Workbook, fileName: string, b: Binding) returns (r: Result<Field>)
    requires b.RowConfig?
    ensures r == ConfigValue(workbook, fileName, None, b)
  {
    var rows;
    if b.mapping.Some? {
      rows :- ReadRowsAndColumnsWithMapping(workbook, fileName, b.sheetName, b.rowRange, b.columns, b.mapping.value);
    } else {
      rows :- ReadRowsAndColumns(workbook, fileName, b.sheetName, b.rowRange, b.columns);
    }
    r := Ok(Rows(rows));
  }
}
