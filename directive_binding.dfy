/** The first loop of processExcelToWssResult: each directive, told apart by its
    prefix, names the default sheet, binds a variable, adds a validation request, or
    is passed over. */
module DirectiveBinding {
  import opened Outcomes
  import opened Strings
  import opened Tokenizer
  import opened ExtractParams
  import opened Variables

  /** A validation request. The requests are kept in a HashSet, so equal requests are
      one; a CHKDUPLICATE without a third parameter, or with NULL, has no except
      values. */
  datatype Validate =
    | CheckDuplicate(sheetName: string, rangeStr: string, exceptValues: Option<set<string>>)
    | CheckSheetDuplicate(sheetConfigs: seq<SheetConfig>)

  /** What the loop builds: the default sheet's name, the variables, the requests. */
  datatype Directives = Directives(sheetName: string, variables: map<string, Binding>, validates: set<Validate>)

  const NoDirectives := Directives("", map[], {})
  const RowByKey := "ROWBY"

  // ---------------------------------------------------------------- one directive

  /** The directive kind, by the first prefix the directive starts with; "" when none
      does. ROWBY( is tried before ROW(. */
  function Command(param: string): (c: string)
    ensures c == "" || StartsWith(param, c + "(")
  {
    if StartsWith(param, "SHEET(") then "SHEET"
    else if StartsWith(param, "FIX(") then "FIX"
    else if StartsWith(param, "COLUMN(") then "COLUMN"
    else if StartsWith(param, "COUNT(") then "COUNT"
    else if StartsWith(param, "ROWBY(") then "ROWBY"
    else if StartsWith(param, "ROW(") then "ROW"
    else if StartsWith(param, "CHKDUPLICATE(") then "CHKDUPLICATE"
    else if StartsWith(param, "CHKSHEETDUPLICATE(") then "CHKSHEETDUPLICATE"
    else ""
  }

  /** The fewest parameters a directive needs to take effect. */
  function MinArity(command: string): nat
  {
    if command == "ROWBY" then 3 else if command == "ROW" then 4 else 2
  }

  /** The parameter at position k, when there is one. */
  function Optional(parts: seq<string>, k: nat): (r: Option<string>)
    ensures r.Some? <==> k < |parts|
  {
    if k < |parts| then Some(parts[k]) else None
  }

  /** String.split(" ", 3): at most three pieces, the last holding the rest. */
  function SplitSearch(s: string): (parts: seq<string>)
    ensures 1 <= |parts| <= 3
  {
    var i := IndexOfChar(s, ' ');
    if i < 0 then [s]
    else
      var rest := s[i + 1..];
      var j := IndexOfChar(rest, ' ');
      if j < 0 then [s[..i], rest]
      else [s[..i], rest[..j], rest[j + 1..]]
  }

  /** The pieces joined by single spaces give the expression back; neither of the
      first two pieces holds a space, and with fewer than three pieces the last holds
      none either. */
  lemma SplitSearchJoins(s: string)
    ensures var parts := SplitSearch(s);
      && Join(parts, " ") == s
      && (|parts| > 1 ==> ' ' !in parts[0])
      && (|parts| > 2 ==> ' ' !in parts[1])
      && (|parts| < 3 ==> ' ' !in parts[|parts| - 1])
  {
    var i := IndexOfChar(s, ' ');
    if i < 0 {
      NoSpace(s);
    } else {
      SpaceCut(s, i);
      SplitAfterSpace(s[..i], s[i + 1..]);
    }
  }

  /** SplitSearchJoins, for an expression whose first space follows a. */
  lemma SplitAfterSpace(a: string, rest: string)
    requires ' ' !in a
    ensures var parts := SplitSearch(a + " " + rest);
      && Join(parts, " ") == a + " " + rest
      && ' ' !in parts[0]
      && (|parts| > 2 ==> ' ' !in parts[1])
      && (|parts| < 3 ==> ' ' !in parts[|parts| - 1])
  {
    var j := IndexOfChar(rest, ' ');
    if j < 0 {
      NoSpace(rest);
      SplitSearchTwo(a, rest);
      JoinTwo(a, rest);
    } else {
      var b, c := rest[..j], rest[j + 1..];
      SpaceCut(rest, j);
      assert a + " " + rest == a + " " + b + " " + c;
      SplitSearchOf(a, b, c);
      JoinThree(a, b, c);
    }
  }

  /** Two pieces when only one space separates them. */
  lemma SplitSearchTwo(a: string, b: string)
    requires ' ' !in a && ' ' !in b
    ensures SplitSearch(a + " " + b) == [a, b]
  {
    var s := a + " " + b;
    assert s == a + [' '] + b;
    FirstOccurrence(a, b, ' ');
    assert s[..|a|] == a && s[|a| + 1..] == b;
    assert IndexOfChar(b, ' ') < 0;
  }

  lemma NoSpace(s: string)
    requires IndexOfChar(s, ' ') < 0
    ensures ' ' !in s
  {
  }

  /** Cutting at the first space: the part before holds none. */
  lemma SpaceCut(s: string, i: int)
    requires i == IndexOfChar(s, ' ') && i >= 0
    ensures s == s[..i] + " " + s[i + 1..] && ' ' !in s[..i]
  {
    assert forall k | 0 <= k < i :: s[..i][k] == s[k];
  }

  lemma JoinTwo(a: string, b: string)
    ensures Join([a, b], " ") == a + " " + b
  {
    assert [a, b][..1] == [a];
  }

  lemma JoinThree(a: string, b: string, c: string)
    ensures Join([a, b, c], " ") == a + " " + b + " " + c
  {
    assert [a, b, c][..2] == [a, b];
    JoinTwo(a, b);
  }

  /** A column, a condition and a value, the first two without spaces, come back as
      the three pieces. */
  lemma SplitSearchOf(a: string, b: string, c: string)
    requires ' ' !in a && ' ' !in b
    ensures SplitSearch(a + " " + b + " " + c) == [a, b, c]
  {
    var s := a + " " + b + " " + c;
    var rest := b + " " + c;
    assert s == a + [' '] + rest;
    FirstOccurrence(a, rest, ' ');
    assert s[..|a|] == a && s[|a| + 1..] == rest;
    assert rest == b + [' '] + c;
    FirstOccurrence(b, c, ' ');
    assert rest[..|b|] == b && rest[|b| + 1..] == c;
    assert SplitSearch(s) == [s[..|a|], rest[..|b|], rest[|b| + 1..]];
  }

  /** FIX, COLUMN, COUNT and ROW: with enough parameters, bind the first to the
      instruction or config the others describe. */
  function BindVariable(d: Directives, param: string, command: string): Result<Directives>
    requires command in {"FIX", "COLUMN", "COUNT", "ROW"}
  {
    var parts :- MultipleParams(param, command);
    if |parts| < MinArity(command) then Ok(d)
    else
      var binding :=
        if command == "FIX" then Instruction("FIX " + parts[1])
        else if command == "COLUMN" then ColumnConfig(parts[1], Optional(parts, 2))
        else if command == "COUNT" then CountConfig(parts[1], Optional(parts, 2))
        else RowConfig(parts[1], parts[2], parts[3], Optional(parts, 4));
      Ok(d.(variables := d.variables[parts[0] := binding]))
  }

  /** ROWBY: the search expression "column condition value" and the column templates,
      bound under the fixed key ROWBY. */
  function BindRowBy(d: Directives, param: string): Result<Directives>
  {
    var parts :- MultipleParams(param, "ROWBY");
    if |parts| < 3 then Ok(d)
    else
      var search := SplitSearch(parts[0]);
      if |search| < 3 then Ok(d)
      else
        var value :- Unquote(search[2]);
        var binding := RowByConfig(parts[2], parts[2], search[0], search[1], value, parts[1]);
        Ok(d.(variables := d.variables[RowByKey := binding]))
  }

  /** CHKDUPLICATE: a request to check one range of one sheet. */
  function BindCheckDuplicate(d: Directives, param: string): Result<Directives>
  {
    var parts :- MultipleParams(param, "CHKDUPLICATE");
    if |parts| < 2 then Ok(d)
    else
      var except :- ExceptValues(parts);
      Ok(d.(validates := d.validates + {CheckDuplicate(parts[0], parts[1], except)}))
  }

  /** CHKSHEETDUPLICATE: a request to compare the ranges of a list of sheets; a body
      that is not a bracketed list is passed over. */
  function BindSheetDuplicate(d: Directives, param: string): Result<Directives>
  {
    var command := "CHKSHEETDUPLICATE";
    if |param| < |command| + 2 then Err(IndexOutOfBounds)
    else
      var content := Trim(param[|command| + 1..|param| - 1]);
      if !(StartsWith(content, "[") && EndsWith(content, "]")) then Ok(d)
      else
        var configs :- SheetConfigs(content);
        Ok(d.(validates := d.validates + {CheckSheetDuplicate(configs)}))
  }

  /** One pass of the loop over a directive. Parsing failures propagate: none of them
      is caught. */
  function BindParam(d: Directives, param: string): Result<Directives>
  {
    var command := Command(param);
    if command == "SHEET" then Ok(d.(sheetName := ExtractStringParam(param, "SHEET")))
    else if command in {"FIX", "COLUMN", "COUNT", "ROW"} then BindVariable(d, param, command)
    else if command == "ROWBY" then BindRowBy(d, param)
    else if command == "CHKDUPLICATE" then BindCheckDuplicate(d, param)
    else if command == "CHKSHEETDUPLICATE" then BindSheetDuplicate(d, param)
    else Ok(d)
  }

  /** The loop over the directives, in order; the first exception ends it. */
  function Bound(params: seq<string>): Result<Directives>
  {
    if params == [] then Ok(NoDirectives)
    else
      var d :- Bound(params[..|params| - 1]);
      BindParam(d, params[|params| - 1])
  }

  // ---------------------------------------------------------------- properties

  /** Whether a directive throws, and with what, depends on the directive alone, not
      on what the loop has built so far. */
  lemma BindErrorsIgnoreState(d1: Directives, d2: Directives, param: string)
    ensures BindParam(d1, param).Err? <==> BindParam(d2, param).Err?
    ensures BindParam(d1, param).Err? ==> BindParam(d1, param).failure == BindParam(d2, param).failure
  {
    var command := Command(param);
    if command in {"FIX", "COLUMN", "COUNT", "ROW"} {
      VariableErrors(d1, d2, param, command);
    } else if command == "ROWBY" {
      RowByErrors(d1, d2, param);
    } else if command == "CHKDUPLICATE" {
      CheckDuplicateErrors(d1, d2, param);
    } else if command == "CHKSHEETDUPLICATE" {
      SheetDuplicateErrors(d1, d2, param);
    }
  }

  lemma VariableErrors(d1: Directives, d2: Directives, param: string, command: string)
    requires command in {"FIX", "COLUMN", "COUNT", "ROW"}
    ensures BindVariable(d1, param, command).Err? == BindVariable(d2, param, command).Err?
    ensures BindVariable(d1, param, command).Err?
        ==> BindVariable(d1, param, command).failure == BindVariable(d2, param, command).failure
  {
  }

  lemma RowByErrors(d1: Directives, d2: Directives, param: string)
    ensures BindRowBy(d1, param).Err? == BindRowBy(d2, param).Err?
    ensures BindRowBy(d1, param).Err? ==> BindRowBy(d1, param).failure == BindRowBy(d2, param).failure
  {
  }

  lemma CheckDuplicateErrors(d1: Directives, d2: Directives, param: string)
    ensures BindCheckDuplicate(d1, param).Err? == BindCheckDuplicate(d2, param).Err?
    ensures BindCheckDuplicate(d1, param).Err?
        ==> BindCheckDuplicate(d1, param).failure == BindCheckDuplicate(d2, param).failure
  {
  }

  lemma SheetDuplicateErrors(d1: Directives, d2: Directives, param: string)
    ensures BindSheetDuplicate(d1, param).Err? == BindSheetDuplicate(d2, param).Err?
    ensures BindSheetDuplicate(d1, param).Err?
        ==> BindSheetDuplicate(d1, param).failure == BindSheetDuplicate(d2, param).failure
  {
  }

  /** Whether a directive throws, wherever it stands in the list. */
  predicate Throws(param: string)
  {
    BindParam(NoDirectives, param).Err?
  }

  /** Some element satisfies p; kept apart from Throws so that the step below does
      not look into the directives. */
  predicate AnyOf<T>(xs: seq<T>, p: T -> bool)
  {
    exists k | 0 <= k < |xs| :: p(xs[k])
  }

  lemma AnyOfSnoc<T>(xs: seq<T>, p: T -> bool)
    requires xs != []
    ensures AnyOf(xs, p) <==> AnyOf(xs[..|xs| - 1], p) || p(xs[|xs| - 1])
  {
    var front := xs[..|xs| - 1];
    if AnyOf(xs, p) {
      var k :| 0 <= k < |xs| && p(xs[k]);
      if k < |front| {
        assert front[k] == xs[k];
      }
    }
    if AnyOf(front, p) {
      var k :| 0 <= k < |front| && p(front[k]);
      assert xs[k] == front[k];
    }
  }

  /** The loop throws exactly when one of the directives throws. */
  lemma {:induction false} BoundErr(params: seq<string>)
    ensures Bound(params).Err? <==> AnyOf(params, Throws)
    decreases |params|
  {
    if params != [] {
      var front, last := params[..|params| - 1], params[|params| - 1];
      BoundErr(front);
      AnyOfSnoc(params, Throws);
      if Bound(front).Ok? {
        BindErrorsIgnoreState(Bound(front).value, NoDirectives, last);
      }
    }
  }

  /** A directive with an unknown prefix, or with fewer parameters than its kind needs,
      or a ROWBY whose search expression has fewer than three parts, changes nothing. */
  lemma SkippedDirectives(d: Directives, param: string)
    ensures Command(param) == "" ==> BindParam(d, param) == Ok(d)
    ensures Command(param) in {"FIX", "COLUMN", "COUNT", "ROW", "ROWBY", "CHKDUPLICATE"}
         && MultipleParams(param, Command(param)).Ok?
         && |MultipleParams(param, Command(param)).value| < MinArity(Command(param))
         ==> BindParam(d, param) == Ok(d)
    ensures Command(param) == "ROWBY" && MultipleParams(param, "ROWBY").Ok?
         && |MultipleParams(param, "ROWBY").value| >= 3
         && |SplitSearch(MultipleParams(param, "ROWBY").value[0])| < 3
         ==> BindParam(d, param) == Ok(d)
  {
  }

  /** Every ROWBY binds the fixed key ROWBY and touches nothing else, so a later ROWBY
      replaces an earlier one. */
  lemma RowByKeyOnly(d: Directives, param: string)
    requires Command(param) == "ROWBY" && BindParam(d, param).Ok?
    ensures var e := BindParam(d, param).value;
      && e.sheetName == d.sheetName && e.validates == d.validates
      && (forall k | k != RowByKey :: (k in e.variables <==> k in d.variables))
      && (forall k | k in d.variables && k != RowByKey :: e.variables[k] == d.variables[k])
  {
    assert BindParam(d, param) == BindRowBy(d, param);
  }

  /** `command("x","y")`, neither holding a delimiter, gives the parameters x and y. */
  lemma TwoQuotedParams(command: string, x: string, y: string)
    requires NoDelimiter(x) && NoDelimiter(y)
    ensures MultipleParams(command + "(" + (Quoted(x) + "," + Quoted(y)) + ")", command) == Ok([x, y])
  {
    var content := Quoted(x) + "," + Quoted(y);
    var param := command + "(" + content + ")";
    assert param[|command| + 1..|param| - 1] == content;
    QuotedPlain(x, QuotesBrackets);
    QuotedPlain(y, QuotesBrackets);
    PiecesConcat(Quoted(x), Quoted(y), QuotesBrackets);
    assert Pieces(content, QuotesBrackets) == [Quoted(x), Quoted(y)];
    assert Emitted(content, QuotesBrackets) == [Quoted(x), Quoted(y)];
    CleanQuoted(x);
    CleanQuoted(y);
    CleanPiecesOf([Quoted(x), Quoted(y)], [x, y]);
  }

  /** `FIX("key","value")` binds key to the instruction "FIX value", replacing any
      earlier binding of key. */
  lemma FixBinds(d: Directives, key: string, value: string)
    requires NoDelimiter(key) && NoDelimiter(value)
    ensures BindParam(d, "FIX(" + (Quoted(key) + "," + Quoted(value)) + ")")
         == Ok(d.(variables := d.variables[key := Instruction("FIX " + value)]))
  {
    var param := "FIX(" + (Quoted(key) + "," + Quoted(value)) + ")";
    TwoQuotedParams("FIX", key, value);
    assert "FIX" + "(" == "FIX(";
    FixCommand(param);
    assert BindVariable(d, param, "FIX") == Ok(d.(variables := d.variables[key := Instruction("FIX " + value)]));
  }

  lemma FixCommand(param: string)
    requires StartsWith(param, "FIX(")
    ensures Command(param) == "FIX"
  {
    assert param[0] == 'F';
  }

  /** The last of several FIX directives with the same key decides its binding. */
  lemma LastFixWins(params: seq<string>, key: string, value: string)
    requires NoDelimiter(key) && NoDelimiter(value)
    requires Bound(params).Ok?
    ensures var all := params + ["FIX(" + (Quoted(key) + "," + Quoted(value)) + ")"];
      Bound(all).Ok? && key in Bound(all).value.variables
      && Bound(all).value.variables[key] == Instruction("FIX " + value)
  {
    var all := params + ["FIX(" + (Quoted(key) + "," + Quoted(value)) + ")"];
    assert all[..|all| - 1] == params;
    FixBinds(Bound(params).value, key, value);
  }

  /** `CHKDUPLICATE("sheet",range)` adds the request to check range on sheet, with no
      except values. */
  lemma CheckDuplicateBinds(d: Directives, sheet: string, range: string)
    requires NoDelimiter(sheet) && NoDelimiter(range) && ',' !in range
    requires range != [] && !IsSpace(range[0]) && !IsSpace(range[|range| - 1])
    ensures BindParam(d, "CHKDUPLICATE(" + (Quoted(sheet) + "," + range) + ")")
         == Ok(d.(validates := d.validates + {CheckDuplicate(sheet, range, None)}))
  {
    var content := Quoted(sheet) + "," + range;
    var param := "CHKDUPLICATE(" + content + ")";
    PlainParams(sheet, range);
    assert param[|"CHKDUPLICATE"| + 1..|param| - 1] == content;
    assert MultipleParams(param, "CHKDUPLICATE") == Ok([sheet, range]);
    CheckDuplicateCommand(param);
    assert BindCheckDuplicate(d, param) == Ok(d.(validates := d.validates + {CheckDuplicate(sheet, range, None)}));
  }

  lemma CheckDuplicateCommand(param: string)
    requires StartsWith(param, "CHKDUPLICATE(")
    ensures Command(param) == "CHKDUPLICATE"
  {
    assert param[0] == 'C' && param[1] == 'H';
  }

  /** A quoted name then a plain trimmed value are the pieces name and value. */
  lemma PlainParams(sheet: string, range: string)
    requires NoDelimiter(sheet) && NoDelimiter(range) && ',' !in range
    requires range != [] && !IsSpace(range[0]) && !IsSpace(range[|range| - 1])
    ensures CleanPieces(Emitted(Quoted(sheet) + "," + range, QuotesBrackets)) == Ok([sheet, range])
  {
    var content := Quoted(sheet) + "," + range;
    QuotedPlain(sheet, QuotesBrackets);
    assert forall i | 0 <= i < |range| :: !IsCut(range, i, QuotesBrackets);
    Unsplit(range, QuotesBrackets);
    PiecesConcat(Quoted(sheet), range, QuotesBrackets);
    assert Pieces(content, QuotesBrackets) == [Quoted(sheet), range];
    CleanQuoted(sheet);
    TrimOfTrimmed(range);
    assert range[0] != '"' by { assert range[0] !in "\"[]()"; }
    assert Unquote(range) == Ok(range);
    CleanPiecesOf([Quoted(sheet), range], [sheet, range]);
  }

  /** The name of the last SHEET directive, or "" when there is none. */
  function LastSheet(params: seq<string>): string
  {
    if params == [] then ""
    else if Command(params[|params| - 1]) == "SHEET" then ExtractStringParam(params[|params| - 1], "SHEET")
    else LastSheet(params[..|params| - 1])
  }

  /** Only a SHEET directive changes the default sheet. */
  lemma BindSheetName(d: Directives, param: string)
    requires BindParam(d, param).Ok?
    ensures BindParam(d, param).value.sheetName
         == if Command(param) == "SHEET" then ExtractStringParam(param, "SHEET") else d.sheetName
  {
    var command := Command(param);
    if command in {"FIX", "COLUMN", "COUNT", "ROW"} {
      assert BindParam(d, param) == BindVariable(d, param, command);
    } else if command == "ROWBY" {
      assert BindParam(d, param) == BindRowBy(d, param);
    } else if command == "CHKDUPLICATE" {
      assert BindParam(d, param) == BindCheckDuplicate(d, param);
    } else if command == "CHKSHEETDUPLICATE" {
      assert BindParam(d, param) == BindSheetDuplicate(d, param);
    }
  }

  /** The default sheet is the one the last SHEET directive names. */
  lemma {:induction false} BoundSheetName(params: seq<string>)
    requires Bound(params).Ok?
    ensures Bound(params).value.sheetName == LastSheet(params)
    decreases |params|
  {
    if params != [] {
      var front := params[..|params| - 1];
      BoundSheetName(front);
      BindSheetName(Bound(front).value, params[|params| - 1]);
    }
  }

  // ---------------------------------------------------------------- the loop

  /** One pass of the loop, with the Java parsers' loops. */
  method BindOne(d: Directives, param: string) returns (r: Result<Directives>)
    ensures r == BindParam(d, param)
  {
    var command := Command(param);
    if command == "SHEET" {
      r := Ok(d.(sheetName := ExtractStringParam(param, "SHEET")));
    } else if command in {"FIX", "COLUMN", "COUNT", "ROW"} {
      r := ApplyVariable(d, param, command);
    } else if command == "ROWBY" {
      r := ApplyRowBy(d, param);
    } else if command == "CHKDUPLICATE" {
      r := ApplyCheckDuplicate(d, param);
    } else if command == "CHKSHEETDUPLICATE" {
      r := ApplySheetDuplicate(d, param);
    } else {
      r := Ok(d);
    }
  }

  method ApplyVariable(d: Directives, param: string, command: string) returns (r: Result<Directives>)
    requires command in {"FIX", "COLUMN", "COUNT", "ROW"}
    ensures r == BindVariable(d, param, command)
  {
    var parts :- ExtractMultipleParams(param, command);
    if |parts| < MinArity(command) {
      return Ok(d);
    }
    var binding: Binding;
    if command == "FIX" {
      binding := Instruction("FIX " + parts[1]);
    } else if command == "COLUMN" {
      binding := ColumnConfig(parts[1], Optional(parts, 2));
    } else if command == "COUNT" {
      binding := CountConfig(parts[1], Optional(parts, 2));
    } else {
      binding := RowConfig(parts[1], parts[2], parts[3], Optional(parts, 4));
    }
    return Ok(d.(variables := d.variables[parts[0] := binding]));
  }

  method ApplyRowBy(d: Directives, param: string) returns (r: Result<Directives>)
    ensures r == BindRowBy(d, param)
  {
    var parts :- ExtractMultipleParams(param, "ROWBY");
    if |parts| < 3 {
      return Ok(d);
    }
    var search := SplitSearch(parts[0]);
    if |search| < 3 {
      return Ok(d);
    }
    var value :- Unquote(search[2]);
    var binding := RowByConfig(parts[2], parts[2], search[0], search[1], value, parts[1]);
    return Ok(d.(variables := d.variables[RowByKey := binding]));
  }

  method ApplyCheckDuplicate(d: Directives, param: string) returns (r: Result<Directives>)
    ensures r == BindCheckDuplicate(d, param)
  {
    var parts :- ExtractMultipleParams(param, "CHKDUPLICATE");
    if |parts| < 2 {
      return Ok(d);
    }
    var except: Option<set<string>> := None;
    if |parts| >= 3 && parts[2] != "NULL" {
      var exceptList :- ExtractArrayParam(parts[2]);
      except := Some(set x | x in exceptList);
    }
    return Ok(d.(validates := d.validates + {CheckDuplicate(parts[0], parts[1], except)}));
  }

  method ApplySheetDuplicate(d: Directives, param: string) returns (r: Result<Directives>)
    ensures r == BindSheetDuplicate(d, param)
  {
    var command := "CHKSHEETDUPLICATE";
    if |param| < |command| + 2 {
      return Err(IndexOutOfBounds);
    }
    var content := Trim(param[|command| + 1..|param| - 1]);
    if !(StartsWith(content, "[") && EndsWith(content, "]")) {
      return Ok(d);
    }
    var configs :- ExtractSheetConfigs(content);
    return Ok(d.(validates := d.validates + {CheckSheetDuplicate(configs)}));
  }

  /** The loop over the directives. */
  method BindDirectives(params: seq<string>) returns (r: Result<Directives>)
    ensures r == Bound(params)
  {
    var d := NoDirectives;
    assert params[..0] == [];
    for i := 0 to |params|
      invariant Bound(params[..i]) == Ok(d)
    {
      assert params[..i + 1][..i] == params[..i];
      var next := BindOne(d, params[i]);
      if next.Err? {
        BoundErrStays(params, i + 1);
        return Err(next.failure);
      }
      d := next.value;
    }
    assert params[..|params|] == params;
    r := Ok(d);
  }

  /** Once the loop has thrown, the remaining directives do not matter. */
  lemma {:induction false} BoundErrStays(params: seq<string>, j: nat)
    requires j <= |params| && Bound(params[..j]).Err?
    ensures Bound(params) == Bound(params[..j])
    decreases |params| - j
  {
    if j < |params| {
      assert params[..j + 1][..j] == params[..j];
      BoundErrStays(params, j + 1);
    } else {
      assert params[..j] == params;
    }
  }
}
